# Verification of siphon-http's own logic

siphon-http is an HTTP addon for siphon: it accepts requests over axum, runs them through Python
middlewares and handlers, and sends outbound requests through pooled clients. Most of it is glue
over libraries. This project models, in Dafny, the parts that hold logic of their own, and proves
what they are for:

* **The certificate reader** (`Asn1`, `Elements`, `ObjectIdentifiers`, `DistinguishedNames`,
  `Certificates`, `CertificateEncoding`, `Rfc4514Names`, `DistinctNames`). A cursor over DER, proved to accept exactly what X.690
  section 8.1 writes with a single-octet tag and at most four length octets, and to read nothing
  else. On top of it object identifiers, names and RFC 5280 certificates: encoding an abstract
  certificate and reading it gives back what the certificate says, whatever follows it. Printed
  names are read back by an unescaping reader, so names print alike exactly when their arcs,
  decoded strings and other octets agree; and they are the names of RFC 4514 exactly when every
  type has a short name and every value is a string.
* **The dispatcher** (`Dispatch`). Stages run in an executor job until a coroutine can suspend,
  and as one coroutine from there. The split execution is proved to refine a plain left-to-right
  chain over an arbitrary script state, with the exact condition under which a reply is lost.
* **Caches of files that change** (`Files`, `ListenerReload`, `ClientPool`, `UndisturbedCaller`,
  `CallerProgress`, `StoreOrder`, `FreshReads`, `StaleClients`, `ClientRegistry`). The listener's
  reload loop, the outbound pool as an interleaving of any number of callers with any changes to the
  files, and the registry of pools.
* **Routing and listener names** (`Routing`, `RouteMatching`, `GuardedRouting`, `Listeners`): which
  registration answers, and exactly when a route restricted to other listeners goes unnoticed.
* **The request parsers** (`Percent`, `QueryStrings`, `PathParams`, `FilledTemplates`), each against
  the encoder it undoes.
* **Admission** (`Admissions`): the guard around a request and the shared counter of the
  documented limit, in every interleaving.

`Octets` holds octets, options and the sequence helpers. `dafny verify dfyconfig.toml` verifies
everything.

How the model is built:

* Code that works step by step is imperative here too: cursors, sinks, counters and caches are
  classes, loops are loops, and each method is proved to do what a function of its inputs or of the
  old state says. The laws are lemmas about these functions.
* What the code does is stated against definitions of its surroundings that share nothing with it:
  tag octets are computed from ASN.1 class, form and number (`Asn1`), identifiers are encoded from
  their arcs, escaping is the ABNF of RFC 4514, URL texts are written with their characters, and
  replies, names and restrictions are spelled out over the entities themselves.
* Octets are integers below 256, and bit operations on them are division and remainder. 64-bit
  words (object identifier arcs, the admission counter) wrap explicitly.
* Standard library and foreign calls are parameters: lossy UTF-8 and UTF-16 decoding and address
  printing (`DistinguishedNames.Library`), what building from files yields (`Files.Source`),
  whether an address parses, which header fields are valid, and which registered template a path
  matches (`RouteMatching.Pick`, any choice by a fixed preference).
* A script function takes a world `W` to a world and an outcome: `None`, a `Response`, anything
  else, an exception, which may be one outside Python's `Exception`, or a panic of native code it
  calls. Calling an `async def` makes a coroutine, which either can suspend or cannot.
* The version of a file counts its changes. Stamps and contents are read one file at a time, and
  files may change between any two reads.

Findings, where the code does less than its surroundings suggest:

* Section 2.4 of RFC 4514 asks for `#` and the hexadecimal BER encoding of every value that is not a
  string and of every value whose type prints as a dotted identifier. The code prints the content
  octets without their header in the first case (the comment at src/x509.rs:223-224 says so) and the
  escaped text in the second: organizationIdentifier (2.5.4.97) as a UTF8String prints as
  `2.5.4.97=` and its text (`Rfc4514Names.PrintedNameConforms` with `OtherValuePrintsNoHeader` and
  `DottedTypePrintsText`). The model follows the code.
* So the tag of a value that is not a string is lost, and an INTEGER prints like an OCTET STRING
  with the same octets (`DistinguishedNames.TagIsNotPrinted`).
* A name of one RDN without attributes prints like the empty name; all others read back
  (`DistinguishedNames.NameReadsBack`).
* Object identifiers with a subidentifier of 2^64 or more print wrapped: an arc of 2^64 prints as 0
  (`ObjectIdentifiers.ArcsReadBack`, `ObjectIdentifiers.LargeArcIsLost`).
* A base exception (`SystemExit`, say) raised by a middleware is answered `middleware error` by the
  executor job but `handler error` once the driver runs the stages, since `drive` only catches
  `Exception`; a panic there is answered `handler error` too, `internal error` in the job
  (`Dispatch.SplitRefinesPlain`, `Dispatch.EscapeLosesTheReply`).
* A certificate replaced between binding a listener and the loop's first look at the stamps is not
  served until it changes again (`ListenerReload.QuietTickServesFiles`,
  `ListenerReload.ChangeBeforeFirstLookIsMissed`); the pool has the same gap
  (`StoreOrder.QuietPoolIsFresh`, `StaleClients.ChangeBeforeFirstLookIsMissed`).
* Two overlapping rebuilds of a pool may store in either order, leaving the older client in use
  until a file changes again (`StoreOrder.NewestUnlessOvertaken`,
  `StaleClients.OverlapLeavesStaleClient`).
* A route restricted to another listener takes its path away from a template that would serve it:
  with `/keys` restricted to `internal` and `/{page}` unrestricted, GET `/keys` on `public` is
  answered 404, though without the restricted route `/{page}` would serve it. So the answer does say
  that the route exists, against src/runtime.rs:555-556
  (`RouteMatching.RestrictedRoutesDoNotExistElsewhere`, `RouteMatching.RestrictedRouteTakesThePath`).
* With `task_with_admission` a route restricted to another listener is not answered "as a path no
  route has" (docs/configuration.md:132) either: the guard runs for it, so its refusal or its header
  fields show that the path exists (`GuardedRouting.RestrictedRoutesAreHiddenUnlessGuarded`,
  `GuardedRouting.RefusalShowsRestrictedRoute`).
* The guard is added after the time limit and the body limit (src/runtime.rs:378-384 and 213-215),
  so it is outside them, although the comment at src/runtime.rs:292-293 says inside. A handler that
  times out gives the guard a 504, and `respond` is called on it, which src/admission.rs:77-80
  rules out (`Admissions.RespondsAsDocumented`, `Admissions.TimedOutRequestResponds`).
* The documented limit can refuse a request while fewer than the maximum are in progress, since a
  refusal under way counts too (`Admissions.RefusedWhenFull`, `Admissions.SpuriousRefusal`).
* A path with more empty leading segments than its template loses them, so the values shift, and a
  catch-all that comes first loses the leading slashes of its value
  (`FilledTemplates.FillingReadsBackExactly`, `FilledTemplates.EmptyFirstValueShifts`).
* `urldecode` takes `%+5` for an escape of the octet 5, since parsing a number accepts a sign
  (`Percent.EscapedMeans`, `Percent.SignedEscape`).
* A route restricted to the empty list of listeners passes the startup validation and is served
  nowhere (`Listeners.ServedSomewhere`).

## Model

| member | source | states |
|---|---|---|
| Elements.Cursor.Element | src/x509.rs:40-65 | one element is taken off the front, at least two octets shorter; a refusal leaves the cursor where it was |
| Elements.Cursor.Expect | src/x509.rs:68-73 | the content of the next element if it has the tag asked for, else nothing |
| Elements.FoldLength | src/x509.rs:53-56 | the length octets are a big-endian number that never exceeds 2^32-1 |
| Elements.ReadElement | src/x509.rs:36-65 | header, content and what is left fit the input, so every loop over elements ends |
| Elements.ElementExact | src/x509.rs:40-65 | an input is accepted if and only if it is a single-octet tag, a length of at most four octets (minimal or not), that much content, then what is left |
| Elements.ElementIgnoresWhatFollows | src/x509.rs:59-64 | octets after an accepted element stay on the cursor and change nothing |
| Elements.ElementNeedsAllOfIt | src/x509.rs:59-61 | no prefix that ends inside an accepted element is accepted |
| Elements.ReadDer | src/x509.rs:40-65 | reading undoes DER for every single-octet tag and content below 2^32 octets |
| Elements.ReaderTags | src/x509.rs:23-31 | the tag constants are the identifier octets X.690 section 8.1.2 computes for these types from class, form and number |
| ObjectIdentifiers.Dotted | src/x509.rs:200-221 | the loop prints the arcs, the accumulated arc stays in 64 bits and splitting the first subidentifier never underflows |
| ObjectIdentifiers.ArcsReadBack | src/x509.rs:200-216 | the arcs encoded by X.690 section 8.19 are read back if and only if every subidentifier is below 2^64 |
| ObjectIdentifiers.LargeArcIsLost | src/x509.rs:200-216 | 2.5.2^64 and 2.5.0 are read as the same arcs |
| ObjectIdentifiers.DottedReadBack | src/x509.rs:217-220 | the dotted text determines the arcs |
| ObjectIdentifiers.AttributeType | src/x509.rs:179-197 | the short name of an identifier in the table, else its dotted form |
| ObjectIdentifiers.TypeTextOfEncoded | src/x509.rs:179-197 | for encoded arcs the type's text is the short name the RFCs give these arcs, or the arcs in decimal: each octet string of the table belongs to one identifier only |
| DistinguishedNames.Escape | src/x509.rs:242-259 | the escaping loop writes every character, escaped by its place and kind |
| DistinguishedNames.EscapedConforms | src/x509.rs:242-259 | every string is printed as the `string` production of section 3 of RFC 4514, so whatever must be escaped is |
| DistinguishedNames.EscapesOnlyWhatMustBe | src/x509.rs:245-258 | a character is escaped exactly where the character classes of section 3 of RFC 4514 do not let it stand, NUL by its digits and any other by itself |
| DistinguishedNames.AttributeValue | src/x509.rs:225-260 | the method prints the value text its specification gives |
| DistinguishedNames.StringTypes | src/x509.rs:226-230 | the tags taken for strings are exactly those of the ASN.1 types UTF8String, NumericString, PrintableString, TeletexString, IA5String and BMPString |
| DistinguishedNames.ValueTextMeans | src/x509.rs:225-260 | for every tag, the text is the escaped decoded string of a string type by its ASN.1 number, else `#` and the hexadecimal octets |
| DistinguishedNames.UnitsReadBack | src/x509.rs:231-235 | a BMPString's units are the pairs of its octets, big endian, without an odd last octet |
| DistinguishedNames.HexTextShape | src/x509.rs:236-239 | two lower-case hexadecimal digits an octet |
| DistinguishedNames.ReadValueText | src/x509.rs:225-260 | unescaping recovers every decoded string, and the octets of a value that is not a string |
| DistinguishedNames.ReadRdn | src/x509.rs:160-171 | the inner loop prints the attributes of one RDN joined by `+`, or refuses |
| DistinguishedNames.DistinguishedName | src/x509.rs:156-175 | the outer loop prints the parsed RDNs in reverse order joined by `,`, or refuses |
| DistinguishedNames.ParseEncodedName | src/x509.rs:156-175 | parsing undoes the encoding of every name |
| DistinguishedNames.NameReadsBack | src/x509.rs:156-260 | splitting at unescaped separators, cutting at `=`, unescaping and reversing recovers types and values of every name, if and only if it is not one RDN without attributes |
| DistinguishedNames.NamesPrintAlikeExactly | src/x509.rs:154-175 | two names other than one RDN without attributes print alike if and only if they have the same types, decoded strings and, where a value is no string, content octets |
| DistinguishedNames.TagIsNotPrinted | src/x509.rs:234-240 | a name with an INTEGER and the one with an OCTET STRING of the same octets differ and print alike |
| DistinctNames.DirectoryNamesPrintAlikeExactly | src/x509.rs:154-260 | two names with identifiers within 64 bits, neither one RDN without attributes, print alike if and only if their arcs, decoded strings and other octets agree |
| Certificates.GeneralNames | src/x509.rs:123-143 | the four kept forms in order, others and odd-sized addresses dropped, or a refusal |
| Certificates.ReadExtensions | src/x509.rs:99-111 | the inner loop; a later subjectAltName replaces an earlier one |
| Certificates.ReadTail | src/x509.rs:92-112 | the outer loop passes over unique identifiers and looks into extensions |
| Certificates.ReadHeader | src/x509.rs:79-90 | the fields up to the public key, with an optional version |
| Certificates.ReadNames | src/x509.rs:76-118 | the whole reader computes its specification and terminates |
| Certificates.TrailingOctetsAreIgnored | src/x509.rs:76-79 | octets after the outer SEQUENCE never change the result |
| Certificates.TruncatedIsRefused | src/x509.rs:329-339 | every prefix that ends inside the outer SEQUENCE is refused |
| CertificateEncoding.SubjectAltNameOctets | src/x509.rs:33-34 | of all identifiers exactly 2.5.29.17 is encoded with the octets the reader looks for |
| CertificateEncoding.ReadEncodedExtensions | src/x509.rs:99-111 | of any list of extensions, by the arcs of their identifiers, the last 2.5.29.17 gives the names |
| CertificateEncoding.CollectEncoded | src/x509.rs:120-143 | of any list of general names the email, dns, uri and ip forms are kept in order |
| CertificateEncoding.NameStringIsText | src/x509.rs:154-175 | the loops print an encoded name as sections 2.1 to 2.3 of RFC 4514 lay it out over arcs: RDNs in reverse with `,`, attributes with `+`, the type's short name or arcs, `=` and the value as the code writes it |
| CertificateEncoding.NamesOfEncoded | src/x509.rs:76-143 | for every certificate, v1 or v3, with or without unique identifiers and extensions, and any trailing octets, the reader returns its alternative names and its subject and issuer with the values as the code writes them |
| Rfc4514Names.ValueConforms | src/x509.rs:222-260 | a value is printed as section 2.4 of RFC 4514 asks if and only if its type has a short name and it is of a string type |
| Rfc4514Names.PrintedNameConforms | src/x509.rs:154-260 | the printed name is the RFC 4514 string, built from section 2.4 values, if and only if that holds of every attribute in it |
| Rfc4514Names.NamesAreWhatIsSaid | src/x509.rs:76-143 | reading any encoded certificate returns its RFC 4514 subject and issuer and its alternative names if and only if that holds of every attribute of both names |
| Rfc4514Names.DottedTypePrintsText | src/x509.rs:192-195 | organizationIdentifier as a UTF8String prints as text, where section 2.4 asks for its encoding |
| Rfc4514Names.OtherValuePrintsNoHeader | src/x509.rs:222-240 | a commonName that is the INTEGER 1 prints as `CN=#01`, where section 2.4 asks for `CN=#020101` |
| Dispatch.ResponseSink.Deliver | src/dispatch.rs:379-386 | the first delivery is sent, a later one finds no sender |
| Dispatch.Drive | src/dispatch.rs:311-329 | the coroutine sends exactly what its specification says, or drops the sender when a base exception or a panic leaves it, even if leaving the deadline raises after the response |
| Dispatch.HandOff | src/dispatch.rs:249-304 | a failed hand-off answers and leaves neither coroutine pending; without a pool the driver runs to its end |
| Dispatch.Start | src/dispatch.rs:208-245 | stages in order until one answers, panics or a coroutine takes over; the fall-through after the loop is unreachable |
| Dispatch.AnswerRequest | src/dispatch.rs:180-204 | exactly one reply for every request, with the stages called 0 to k once each in order; a job that panics in a stage is answered with an internal error after that stage |
| Dispatch.DriveIsPlain | src/dispatch.rs:311-329 | the driver is the plain chain from where it takes over |
| Dispatch.StartIsPlain | src/dispatch.rs:219-239 | the job agrees with the plain chain up to its answer or the take-over |
| Dispatch.SplitRunsThePlainStages | src/dispatch.rs:208-329 | over every chain, world, suspension pattern, deadline and panic, the split execution calls the stages of the plain chain, once each in order, and leaves the same world |
| Dispatch.SplitRefinesPlain | src/dispatch.rs:208-329 | its reply is that of the plain chain if and only if no base exception leaves the driver from a middleware (without a pool, from any stage) and no panic leaves it under a pool |
| Dispatch.RepliesMean | src/dispatch.rs:389-425 | a script's response is sent if and only if the deciding stage returned it, and each error text if and only if a middleware or the handler returned something else or raised, up to what is lost in the driver |
| Dispatch.EscapeLosesTheReply | src/dispatch.rs:311-329 | a middleware that suspends and then exits or panics under a pool is answered `handler error`, which is not the chain's reply |
| Dispatch.FaultsAnswer | src/dispatch.rs:196-304 | a refused job or a failed request object is answered with nothing called; after a failed hand-off the calls end at the first stage whose coroutine can suspend |
| ListenerReload.Listener.TurnOnce | src/runtime.rs:814-831 | one turn of the loop: unchanged stamps change nothing, changed ones are remembered whether or not the build succeeds |
| ListenerReload.Listener.Reload | src/runtime.rs:804-833 | the loop, for any number of ticks, is the run of its specification |
| ListenerReload.ServesLatestSuccess | src/runtime.rs:820-831 | over every run the latest successful build is served and a failed one never replaces it |
| ListenerReload.QuietTickServesFiles | src/runtime.rs:804-833 | after a tick without changes, if no earlier state of the files had the stamps they have now, the listener serves a build of them, if and only if they changed since the loop's first look or did not change between the bind and that look |
| Files.StampsAgree | src/runtime.rs:788-800 | the stamps compared agree if and only if that of every single file does |
| ListenerReload.ChangeBeforeFirstLookIsMissed | src/runtime.rs:804-833 | a file changed once between the bind and the first look is not served after any number of ticks |
| ClientPool.Pool.GetClient | src/outbound.rs:171-204 | one undisturbed call: no look before the period is over, a rebuild only when stamps changed, the old client kept when it fails |
| ClientPool.EveryStepKeeps | src/outbound.rs:171-204 | the invariant of the pool survives every step of every caller and every change of a file |
| ClientPool.EveryClientLoaded | src/outbound.rs:185-203 | in every interleaving each client handed out is a load that succeeded, and each observed change is rebuilt by exactly one caller |
| CallerProgress.NobodyIsStuck | src/outbound.rs:171-204 | in every interleaving each caller that is not through can take its next step, but for a look that waits for the lock, whose holder can; files change and calls come in at any time |
| StoreOrder.NewestUnlessOvertaken | src/outbound.rs:171-198 | over every run the current client is the newest one stored if and only if the last caller to store did not compare its stamps before another that stored too |
| StoreOrder.AtRestNewestIsCurrent | src/outbound.rs:173-198 | at rest the current client is the newest rebuild that loaded under that same condition, which always holds without overlap; the last rebuild read its files after the remembered stamps |
| StoreOrder.QuietPoolIsFresh | src/outbound.rs:171-204 | at rest, with the last store not overtaken and stamps of the files as they are that no earlier state had, the client was built from them if and only if they changed since the first look or did not change between making the pool and that look |
| FreshReads.CurrentIsFreshExactly | src/outbound.rs:171-198 | at every moment of every run the current client was built from the files as they are if and only if no file changed after the caller that stored last had read it (or none stored, and the files are those the pool was made from) |
| StaleClients.SettledStays | src/outbound.rs:171-204 | a settled pool keeps its client, fresh or stale, until a file changes |
| StaleClients.OverlapLeavesStaleClient | src/outbound.rs:185-189 | two overlapping rebuilds that store in the other order leave the older client current until a file changes |
| StaleClients.ChangeBeforeFirstLookIsMissed | src/outbound.rs:173-184 | a file changed once between making the pool and the first look never gets into its client |
| UndisturbedCaller.UndisturbedIsSequential | src/outbound.rs:171-204 | the interleaved steps of one undisturbed caller come to what the sequential call does |
| ClientRegistry.Registry.Pooled | src/outbound.rs:234-265 | the answer and the registry after one call |
| ClientRegistry.Registry.Named | src/outbound.rs:222-231 | an unconfigured name is unknown, any other goes to the registry |
| ClientRegistry.OnePoolPerName | src/outbound.rs:217-246 | after a success for a name, later calls get that very pool for equal settings and a conflict for others |
| ClientRegistry.FailureChangesNothing | src/outbound.rs:238-247 | a failed call leaves the registry as it was |
| ClientRegistry.EveryPoolWasBuilt | src/outbound.rs:247-264 | every registered pool was built by a call for its name, from that call's settings |
| ClientRegistry.FirstCallsBuild | src/outbound.rs:247-264 | while no call for a name has succeeded, a build that works gives its pool, one that does not its reason, and an unconfigured name is unknown |
| ClientRegistry.UnconfiguredIsUnknown | src/outbound.rs:222-229 | a name that is not configured is unknown whatever was built for it before |
| Routing.MatchRoute | src/runtime.rs:474-494 | the first scope that is unrestricted or names the listener, and has the method; else 405 if and only if some scope is unrestricted or names it; else not on this listener |
| Routing.BuildRouter | src/runtime.rs:318-355 | the router has exactly the non-empty registered paths, each with its entries in registration order |
| Routing.Dispatch | src/runtime.rs:570-581 | the chosen index always has a handler |
| Routing.Route | src/runtime.rs:517-581 | what a built router answers, in terms of the registrations |
| Routing.FirstFittingRegistrationAnswers | src/runtime.rs:443-536 | of the registrations of the matched path, the first that is unrestricted or names the listener, and has the method, answers; without one it is 405 if and only if one is unrestricted or names the listener, else 404 |
| Routing.OnlyServedRegistrationsAnswer | src/runtime.rs:443-454 | what a matched template answers depends on its registrations served on the request's listener only |
| RouteMatching.RestrictedRoutesDoNotExistElsewhere | src/runtime.rs:352-355 | for every preference among templates, the answer to a path is the one after deleting all registrations not served on the request's listener, if and only if the path then matches the template it matched before, or none |
| RouteMatching.RestrictedRouteTakesThePath | src/runtime.rs:474-494 | `/keys` of another listener answers 404 where `/{page}` would serve the path without it |
| GuardedRouting.RestrictedRoutesAreHiddenUnlessGuarded | src/runtime.rs:213-215 | with or without a guard, the response is the one after that deletion if and only if the path keeps its template; or it then matches none, and matched none before or the guard leaves the plain 404 as it is; or it then matches another, and the guard refuses or that one answers the plain 404 |
| GuardedRouting.RefusalShowsRestrictedRoute | src/runtime.rs:292-299 | an overloaded guard answers 503 for a route of another listener and 404 for a path no route has |
| GuardedRouting.ResponsesMean | src/runtime.rs:292-299 | the first fitting registration of the matched template answers through the guard, else the 405 or plain 404 does; a path that matches nothing is not guarded |
| RouteMatching.UnknownListenerSeesUnrestrictedRoutes | src/runtime.rs:444-452 | a request whose listener is not known is answered as if only unrestricted routes were registered, if and only if the path then matches the template it matched before, or none |
| Listeners.KnownByListenerName | src/config.rs:149-151 | a named entry is known by its name and an unnamed one by its address, and by nothing else |
| Listeners.Parse | src/config.rs:324-346 | the loop refuses the first entry that does not parse or whose name is taken |
| Listeners.LoadsMeans | src/config.rs:324-346 | a configuration loads if and only if all addresses parse and no two entries are known by one name that one of them was given |
| Listeners.RefusalNamesTheFirst | src/config.rs:324-346 | a refusal carries the first offending entry, for a taken name the one it is known by |
| Listeners.GivenNameSelectsOne | src/config.rs:331-344 | a given name selects exactly one listener |
| Listeners.SharedNameMeansSameAddress | src/config.rs:334-338 | entries that share a name are unnamed and have the same address |
| Listeners.UnknownRouteListeners | src/runtime.rs:498-515 | the loops collect the path and name of every unknown listener, in order |
| Listeners.UnknownMeans | src/runtime.rs:496-515 | a pair is found if and only if a route of that path asks for that name and no listener has it |
| Listeners.RestrictedRouteIsServed | src/runtime.rs:217-238 | when nothing is unknown, every name in a restriction is that of a configured listener, and the route is served on the listeners known by those names and on no other |
| Listeners.ServedSomewhere | src/runtime.rs:217-238 | so it is served somewhere if and only if its restriction is not the empty list (or there are no listeners at all) |
| Percent.Urldecode | src/parse.rs:56-78 | the index loop decodes as specified and terminates |
| Percent.DecodedLength | src/parse.rs:56-78 | each decoded escape takes two octets off the length and nothing else does |
| Percent.EscapedMeans | src/parse.rs:60-70 | an escape is a percent sign and two hexadecimal digits, of which the first may be a plus sign |
| Percent.SignedEscape | src/parse.rs:60-70 | such a plus sign stands for no digit |
| Percent.DecodeIsIdentity | src/parse.rs:56-78 | text is unchanged if and only if it holds neither a plus sign nor an escape |
| Percent.DecodeWritten | src/parse.rs:54-78 | every percent-encoding of every octet sequence, in either case, with a space as plus or escaped, decodes to it |
| QueryStrings.ParseQuery | src/parse.rs:39-52 | the loop inserts the pairs in order |
| QueryStrings.QueryReadsBack | src/parse.rs:39-52 | parsing an encoded list of pairs gives its last-wins map, if and only if the list is not a single bare empty key |
| QueryStrings.LastWinsMeans | src/parse.rs:44-50 | that map has exactly the given keys, each with the value of its last pair |
| PathParams.ExtractPathParams | src/parse.rs:17-36 | the loop over template segments; no slice is out of range |
| FilledTemplates.SplitTrimmed | src/parse.rs:18-21 | trimming the slashes of any text drops the empty segments in front, all but the last segment |
| FilledTemplates.FillingReadsBack | src/parse.rs:17-36 | extraction returns the assignment a template was filled with when the template and the path begin with as many empty segments |
| FilledTemplates.FillingReadsBackExactly | src/parse.rs:17-36 | with distinct names it does if and only if they do, or the path is empty and at most one parameter takes a single segment |
| FilledTemplates.FilledTemplateReadsBack | src/parse.rs:17-36 | with a first segment that is not empty, extraction undoes filling if and only if it is not a catch-all whose text starts with a slash |
| FilledTemplates.AssignedMeans | src/parse.rs:25-31 | with distinct names the result holds exactly the names, each with its value |
| FilledTemplates.EmptyFirstValueShifts | src/parse.rs:19-20 | when the path has more of them, the first parameter takes the first segment that is not empty, or the last |
| Admissions.HeaderMap.Append | src/admission.rs:98-114 | the valid fields are appended in order, the others left out |
| Admissions.ValidFieldsMeans | src/admission.rs:98-114 | each field is kept in its place if and only if its name and its value are valid |
| Admissions.RefusalKeepsStatus | src/admission.rs:135-141 | a refusal is sent with its status, body and valid fields, and with 503 if and only if that is no status |
| Admissions.Guard | src/admission.rs:118-148 | refused beyond the limit with the guard's own response; else the handler's response with the added fields, responding once; the counter is as before |
| Admissions.StepKeeps | src/admission.rs:20-36 | every atomic step of every request keeps the counting invariant, without wrapping while fewer than 2^64 requests are counted |
| Admissions.LimitHolds | src/admission.rs:24-36 | in every interleaving that counts fewer than 2^64 requests at a time, at most the maximum is in progress, the counter is those plus refusals under way, and `respond` ran once if and only if some response came back and was passed to it |
| Admissions.RespondsAsDocumented | src/admission.rs:76-81 | of a request that is over, `respond` ran once if its handler answered and never otherwise, if and only if neither the time limit nor the body limit answered in the handler's place |
| Admissions.TimedOutRequestResponds | src/runtime.rs:213-215 | a run in which the handler times out and `respond` is called |
| Admissions.ZeroWhenIdle | src/admission.rs:21-27 | the counter is zero if and only if nothing is in progress or being refused |
| Admissions.RefusedWhenFull | src/admission.rs:26-28 | in every interleaving a request is refused if and only if those in progress and the refusals under way are at least the maximum together |
| Admissions.NoRequestWaits | src/admission.rs:118-148 | a request that is not over can always take its next step, whatever the others do; a running one may be answered by the handler or either limit, or be abandoned |
| Admissions.SpuriousRefusal | src/admission.rs:26-28 | with a limit of one, a run that refuses a request while none is in progress |

## Left out

- TLS handshakes, rustls configuration, PEM loading and fingerprints: library work; building from files is an abstract function that may fail.
- axum's path matching, the body limit and the request timeout layer themselves: which template matches is a parameter, and their responses are steps in `Admissions`.
- How a script's `Response` becomes an HTTP response (src/dispatch.rs:147-163): one loop that drops invalid fields, the same shape as `Admissions.HeaderMap.Append`.
- PyO3 attach counts, thread placement and garbage-collector pauses.
- Sending requests, redirects and error classification of the outbound client.
- Lossy UTF-8 and UTF-16 decoding and the text of IP addresses: parameters of the model.
- YAML parsing, environment expansion, socket options and DSCP names.
- `client_addr`, `joined_headers`, `Reply::header` and `listener_failures_are_fatal`: single-branch or single-loop facts.
- Dispatch.SplitRefinesPlain: a script function depends on the world and changes it, but two requests that share script state are not interleaved.
- StoreOrder.QuietPoolIsFresh: about runs whose last store was not overtaken; for all others `FreshReads.CurrentIsFreshExactly` says when the client is fresh.
- ListenerReload.QuietTickServesFiles: when an earlier state of the files had their present stamps (coarse modification times, say) the code cannot see the change.
- GuardedRouting.RestrictedRoutesAreHiddenUnlessGuarded: the guard's decision on the request is a parameter; its counter and a client that goes away are in `Admissions`.
- FilledTemplates.FillingReadsBack: about templates that parse as they were written, with no slash or colon in a parameter's name.
- CertificateEncoding.NamesOfEncoded: about DER, as certificates are; for the other length forms the cursor accepts, `Elements.ElementExact` says what is read.
