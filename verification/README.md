# swarm-seed-list, modelled in Dafny

`swarm-seed-list` lists the running tasks of a Docker swarm service. From
each task it picks the peer's address on a target network and asks that
peer for its public key over JSON-RPC. It then serves a seed list over
HTTP: one `ws://{ip}:8443/{key}` URL per line. When a signing seed is
configured, the list ends with a blank line and the lowercase hex Ed25519
signature of the URL lines. A ticker rebuilds the list on a fixed
interval. A failed rebuild keeps the previous list. A failed first build,
or a malformed seed, stops the process before it serves anything.

This project models the sequential logic of `main.go`:

- `tasks.dfy` (`Tasks`): the task filter and address scan of `getURLs`.
- `seedlist.dfy` (`SeedList`): the URL format, the successful key requests, the artifact buffer with its signature block, and the reader's view of a signed artifact.
- `pipeline.dfy` (`Pipeline`): one refresh cycle (`generateSeedList`).
- `cache.dfy` (`Cache`): the refresh/swap policy and the read endpoint.
- `startup.dfy` (`Startup`): seed validation and start-up.
- `hex.dfy` (`Hex`) and `text.dfy` (`Text`): base16 text (section 8 of RFC 4648) and newline framing.
- `wrappers.dfy` (`Wrappers`): `Option` and `Result`.

The collaborators are parameters of the model:

- `parse: string -> Option<IP>` stands for `net.ParseCIDR` followed by `ip.String()`.
- `sign: (seed, message) -> signature` stands for `ed25519.Sign(ed25519.NewKeyFromSeed(seed), message)`. It is uninterpreted.
- A `Cycle` value holds the task listing (or its error), the key-request outcome of each candidate, and the order in which the channel delivered the URLs. `Consistent` requires that the delivery is a permutation of the successful URLs.
- `Boot` receives the first generation's outcome as a function of the seed.

Text is `seq<char>`, and each character stands for one byte of Go's buffer.

The source applies the CIDR parser to the literal string `"address"` instead of the selected address (`main.go:146`). The step from address to IP is therefore a parameter `step`:

- `Tasks.AsWritten(parse)` is the step as written: it ignores the address and parses the constant.
- Passing `parse` itself gives the evidently intended step.

The general cycle lemmas take an arbitrary `step`, so they hold for either step. The lemmas named `AsWritten…` state what the code as written does. The concrete example `Pipeline.ExampleTwoOfThree` runs the corrected step: as written, every candidate is the parse of the same constant, so its three distinct candidates cannot arise.

Two facts about the code shape the model:

- The seed in `SEED_PRIVATE_KEY` is hex text. It must decode to exactly 32 bytes (`main.go:41-42`).
- A task whose first matching attachment has `""` as its first address ends the scan. The task is then skipped, even if a later attachment would match.

## Model

| member | source | states |
|---|---|---|
| Hex.Encode | main.go:103 | the signature text has two characters per byte, all lowercase hex digits: the high nibble of each byte, then its low nibble |
| Hex.Decode | main.go:41 | decoding succeeds iff the text has even length and only hex digits of either case; byte i is sixteen times the value of character 2i plus the value of character 2i+1 |
| Hex.DecodeEncode | main.go:103 | decoding the signature text gives back exactly the signature bytes |
| Hex.EncodeDecode | main.go:41 | lowercase hex text that decodes is exactly the encoding of what it decodes to |
| Text.Join | main.go:96-99 | the URL lines: empty iff there are no URLs, otherwise ending in a line break, at least one character per URL |
| Text.SplitJoin | main.go:96-99 | splitting the URL lines at line breaks gives back the URLs, in the order written, when no URL contains a break |
| Tasks.SelectAddress | main.go:134-141 | the chosen address is the first address of the first attachment on the target network that has addresses; it is "" when no attachment qualifies |
| Tasks.TaskCandidate | main.go:127-151 | a task yields a candidate iff its desired and observed states are both running, its scan stops at an attachment whose first address is non-empty, and the parse step accepts that address; the candidate is the step's result for the selected address |
| Tasks.AsWritten | main.go:146 | the step as written gives the same result for every address: the parse of the constant "address" |
| Tasks.NotRunningSkipped | main.go:128-131 | a task that is not running in both senses adds nothing to the candidates |
| Tasks.Candidates | main.go:126-152 | the number of candidates is bounded by the number of tasks |
| Tasks.CandidateMultiplicity | main.go:126-152 | each IP occurs among the candidates exactly as often as tasks of the snapshot yield it |
| Tasks.CandidatesFromTasks | main.go:126-152 | an IP is a candidate iff some task in the snapshot yields it |
| Tasks.AsWrittenCandidatesConstant | main.go:146-152 | as written, every candidate is the same value: the parse of the constant "address" |
| Tasks.AsWrittenNoCandidates | main.go:146-151 | as written, if parsing "address" fails, no task yields a candidate |
| Tasks.AsWrittenDropsValidAddress | main.go:146 | a running task on the network with address 10.0.0.1/24 yields nothing as written, but yields 10.0.0.1 when the address itself is parsed |
| Tasks.CorrectedCandidates | main.go:126-152 | when the selected address itself is parsed, an IP is a candidate iff it is the parse of the selected address of some running task whose selected address is non-empty |
| SeedList.FormatURL | main.go:168 | a URL is "ws://", then the IP, then ":8443/", then the key, with these parts at fixed positions |
| SeedList.FormatURLInjective | main.go:168 | for a fixed IP, the URL determines the key |
| SeedList.FormatURLNoNewline | main.go:168 | a URL built from an IP and a key that have no line breaks has none |
| SeedList.FetchNoNewline | main.go:163-169 | when no candidate IP and no returned key holds a line break, no URL does |
| SeedList.Fetch | main.go:163-169 | one URL per key request that succeeded and none per failed one; a URL is present iff some candidate's request returned the key it carries |
| SeedList.FetchMultiplicity | main.go:163-178 | each URL occurs among the results exactly as often as there are candidates whose request succeeded and whose IP and key it is built from |
| SeedList.SignatureText | main.go:103 | the signature line is lowercase hex, has no line break, and is twice the signature's byte length |
| SeedList.Build | main.go:95-106 | the URL lines are a prefix of the artifact; without a seed they are the whole artifact; with one, what follows is a blank line, the signature over exactly the URL lines, and a line break |
| SeedList.WriteSeedList | main.go:95-106 | writing the URLs and line breaks one at a time, then the signature block, produces exactly the artifact `Build` defines |
| SeedList.OpenSigned | main.go:100-105 | what a reader takes for the URL lines is a strict prefix of the artifact |
| SeedList.OpenSignedBuild | main.go:100-105 | a reader of a signed artifact recovers exactly the URL lines and the signature computed over them |
| SeedList.UnsignedLines | main.go:95-99 | an unsigned artifact reads back as the URLs, in the order given |
| SeedList.BuildNoURLs | main.go:95-106 | with no URLs the artifact is empty, or only the signature block over the empty text |
| Pipeline.Generate | main.go:90-107 | generation fails iff the task listing fails, and passes on that error; on success the artifact is the buffer built from the URLs in delivery order and the configured seed, and as many URLs are delivered as key requests succeeded |
| Pipeline.ReceivedBreakFree | main.go:163-178 | when candidate IPs and returned keys have no line breaks, neither does any delivered URL |
| Pipeline.GenerateUnsigned | main.go:90-106 | unsigned: the artifact's lines are the delivered URLs in delivery order, and as a multiset they are the successful URLs |
| Pipeline.GenerateSigned | main.go:100-105 | signed: a reader recovers URL lines that hold the successful URLs, each once, and the signature over exactly those lines |
| Pipeline.AsWrittenNoURLLines | main.go:146-151 | as written, if parsing "address" fails, every cycle with a successful listing yields an artifact with no URL lines |
| Pipeline.DeliveryOrderOnlyPermutes | main.go:176-178 | two delivery orders of the same results give artifacts whose URL lines are equal as multisets |
| Pipeline.ExampleTwoOfThree | main.go:163-169 | with the corrected step: three candidates, keys "aa" and "bb", one timeout, no seed: the artifact is exactly the two URLs, each followed by a line break |
| Cache.Refresh | main.go:70-76 | a failed refresh leaves the cache unchanged; a successful one replaces the list with the new output |
| Cache.Serve | main.go:79-85 | the endpoint answers only once a list exists, always with status 200, content type `text/plain; charset=UTF-8` and the current list verbatim |
| Cache.Run | main.go:68-77 | a sequence of ticks never returns the cache to warming (what it serves is stated by `Cache.RunServesLastGood`) |
| Cache.RunServesLastGood | main.go:68-77 | after any sequence of ticks, the served list is the output of the latest successful generation, or the initial list if none succeeded |
| Cache.ServedWasCommitted | main.go:72-75 | the served list is always the initial list or the complete output of one successful generation, never a mixture |
| Cache.FailedRefreshesKeepList | main.go:70-71 | when every refresh fails, the served bytes stay identical to the initial list |
| Cache.SuccessReplacesWholesale | main.go:72-75 | when the last refresh succeeds, exactly its output is served, whatever was served before |
| Startup.ParseSeed | main.go:39-46 | the seed is accepted iff the value is empty (signing disabled) or is 64 hex digits of either case, which decode to 32 bytes, and the seed is those bytes: byte i is sixteen times the value of digit 2i plus the value of digit 2i+1; anything else is fatal |
| Startup.SeedRoundTrip | main.go:39-46 | every 32-byte seed written as hex is accepted and read back unchanged |
| Startup.Boot | main.go:39-67 | a bad seed is fatal first; otherwise start-up succeeds iff the first generation does; after start-up the endpoint serves that first list |

## Left out

- Docker client and task listing (`main.go:50-58`, `111-116`): the filter construction and the `TaskList` call are foreign I/O. The snapshot, or the listing error, is an input of the cycle. The service-name and desired-state filters are applied on the Docker side, so they are not modelled.
- Docker client construction failure (`main.go:50-53`): it is fatal and happens after the seed check and before the first generation. `Startup.Boot` folds it into the `generate` outcome, so it appears as `InitialGenerationFailed`.
- JSON-RPC key request and its 3-second timeout (`main.go:157-165`): network I/O. Each candidate's request is an input `Option<string>`.
- Goroutines, the `WaitGroup` and the channel (`main.go:123-125`, `153-155`, `172-178`): the only modelled effect is the delivery order, which is any permutation of the successful URLs.
- The `RWMutex` (`main.go:62`, `73-75`, `80-81`): modelled only as the whole-value replacement in `Cache.Refresh`. Readers see one cache state or the next.
- `time.Tick` scheduling, the HTTP server, flag parsing and logrus logging: plumbing. A run of ticks is a sequence of generation outcomes.
- Ed25519 (`main.go:45`, `101`): a library primitive, kept as the uninterpreted `sign` parameter. So the claim that changing one byte of the URL lines makes verification fail is not modelled.
- `net.ParseCIDR` and `ip.String()` (`main.go:146`, `152`): the `parse` parameter.
- Hex.Decode: Go's two error kinds (odd length, invalid byte) are merged into `None`, because the caller only checks whether there was an error.
- SeedList.UnsignedLines: the read-back holds only for URLs without line breaks. A peer key containing `\n` would break the line framing, and the source does not rule that out.
- Pipeline.GenerateUnsigned: requires `BreakFree`, that no candidate IP and no returned key holds a line break; the source does not rule such keys out.
- Pipeline.GenerateSigned: the same `BreakFree` precondition.
- Pipeline.DeliveryOrderOnlyPermutes: the same `BreakFree` precondition, and stated only for unsigned artifacts. The signature depends on the order, so signed artifacts are not equal across orders.
- Cache.Refresh: requires a serving cache, because the ticker starts only after the first generation succeeded (`main.go:64-68`).

## Findings

| source | as written | input that shows it | evidently intended | confidence | as-written member | corrected member |
|---|---|---|---|---|---|---|
| main.go:146 | `net.ParseCIDR("address")` parses the constant text "address", not the selected address | a running task on the target network with address `10.0.0.1/24`: "address" has no `/`, so the parse fails and the task is dropped; every other task is dropped the same way, so the seed list never holds a URL | parse the selected address and use its IP | not executed | Tasks.AsWrittenDropsValidAddress | Tasks.CorrectedCandidates |
