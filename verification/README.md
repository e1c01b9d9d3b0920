# Verified models of qjs-lws

This project models the self-contained algorithms of qjs-lws, the libwebsockets binding for QuickJS, and
proves properties of them:

- the URL parser and printer, with percent and form coding (sections 1.3, 3.5, 4.4, 4.5, 5.1 and 5.2 of the
  WHATWG URL Standard);
- the lossy UTF-8 decoder (section 8.1.1 of the WHATWG Encoding Standard);
- the intrusive circular list with its in-place merge sort;
- the DNS message codec, record cache and iterative resolver (sections 3 and 4 of RFC 1035, RFC 3596);
- the breadth-first crawler;
- the socket write queue and the sending of client request bodies;
- stream framing: chunked responses (section 7.1 of RFC 9112), debugger frames, JSON framing, and the
  chunked-array queue.

Pure code is modelled by functions; code that changes state is modelled by classes, arrays and loops that are
proved against such functions.  `None` stands for JavaScript's `null`, for a failure result, or for a thrown
error, as each module says.  `dafny verify dfyconfig.toml` checks the whole project.

## How the pieces fit

| files | what |
|---|---|
| Wrappers, Seqs, Numerals | options, bytes, sequence functions, decimal and hexadecimal numerals |
| Utf8, PercentCoding, FormUrlEncoded | text codings |
| UrlRecord, UrlMachine | records, hosts, printing; the parser as a step function over twenty states |
| UrlInvariant | what every state keeps, and the records that come out |
| UrlScan, UrlAuthority, UrlFixpoint, UrlUserinfo | what the machine does on printed text and on user information |
| UrlReference, UrlDots, UrlShift | references: inherited parts, any path with dot segments, two slashes |
| UrlParser, UrlNatives | the imperative parser; an instance of the native address contract |
| StableSort, LinkedList, ListSort, ListOps | merge sort on sequences, and the same on heap nodes |
| DnsBytes, DnsName, DnsAddress, DnsRecord, DnsMessage, DnsCompressed, DnsCache | the codec and the cache of the DNS example |
| DnsAnswers, DnsLog, DnsTrail, DnsResolver | what replies lead to, what was asked and heard, which servers were asked; the resolver |
| WriteQueue, ClientBody | the write queue; request bodies sent through it |
| DebuggerFrames, DebuggerServer, DebuggerPage | debugger frames, and their decoders on the server and the page |
| Crawler, SimpleQueue, ChunkedResponse, JsonFramer | one algorithm each |

Scan lemmas about the URL machine speak of any way `run` to finish a parse (`Executes`), of which `Run` is one;
that keeps the recursion out of their proofs.

Findings about the code, stated by the lemmas named:

- `DnsName.NameRoundTrip`, `DnsName.NoFinalDot`, `DnsName.EmptyLabel`, `DnsName.WideCharacter`: names without a final
  dot, with empty labels or with characters above 255 are encoded without an error but read back differently.
- `ChunkedResponse.ResponseDecodes`, `ChunkedResponse.LateChunk`: `write` after `end` is not refused; the bytes of
  a chunk that is not empty land behind the last chunk.
- `ClientBody.HeldBack`, `ClientBody.ClientRequest.Writeable`: an empty body may still be queued when it is no longer
  marked pending, since nothing is buffered then; with any other body nothing is queued at that point.
- `DnsAnswers.LoopIff`, `DnsAnswers.CaseRunsOut`, `DnsAnswers.SpellingsFollowed`: the check for repeated aliases
  compares targets letter for letter, so aliases that lead back to the same name in other spellings are followed
  until the hops run out.
- `DebuggerPage.EndsIff`, `DebuggerPage.NoDigits`, `DebuggerPage.MinusNine`: a header that states no length, or one
  that takes nothing off the buffer, makes the loop of the page spin.
- `DebuggerServer.StuckMore`, `DebuggerServer.NoNumber`: behind such a header the server passes nothing more
  on, whatever arrives.
- `DebuggerPage.NullStays`, `DebuggerServer.NotJsonEnds`: one payload that its consumer throws at stops the decoder:
  the page tries it again with every message, the server decodes nothing behind it.
- `WriteQueue.Socket.Clear`, `WriteQueue.Socket.Flush`: after a failed write everything queued is dropped; conservation
  is counted from there.

## Model

| member | source | states |
|---|---|---|
| `UrlMachine.Step` | lib/lws/url.js:354-780 | Termination: a step either moves to a state of lower rank or stays in its state and moves the pointer ahead by one; only such a drop in rank may move the pointer back, as the scheme and authority states do. So the parser halts on every input, and no step reads a missing base or component |
| `UrlInvariant.StepKeeps` | lib/lws/url.js:354-780 | Each of the twenty states keeps its own invariant, and a record left when the input is used up is valid |
| `UrlInvariant.ParseHostGood` | lib/lws/url.js:213-254 | A parsed host is an IPv4 number below 2^32 only for special schemes, a domain without forbidden or upper-case characters that does not end in a number, or encoded opaque text that is empty only for empty input |
| `UrlInvariant.ParseValid` | lib/lws/url.js:338-783 | Every record returned, for any input and any valid base, satisfies the record invariant |
| `UrlInvariant.ParsedRecord` | lib/lws/url.js:338-783 | Port at most 65535 and never the default; no dot segments; special URLs have a path, and a host unless they are file URLs; credentials or a port need a host; opaque paths have no host; a missing host needs a path |
| `UrlFixpoint.ParseSerialized` | lib/lws/url.js:338-819 | Parsing the text of a valid record gives the record back, against any base: absolute URLs do not depend on the base |
| `UrlFixpoint.Fixpoint` | lib/lws/url.js:338-819 | For every accepted input and base, printing the result and parsing it without a base gives the same record |
| `UrlFixpoint.ValidIffParsed` | lib/lws/url.js:338-783 | The record invariant is exact: a record satisfies it if and only if some input parses to it |
| `UrlFixpoint.SerializeInjective` | lib/lws/url.js:789-819 | Two valid records with the same text are the same record |
| `UrlFixpoint.ReparseHost` | lib/lws/url.js:232-261 | The host parser reads every printed host of a valid record back: domains, IPv4 numbers, bracketed IPv6 addresses and opaque hosts |
| `UrlFixpoint.CleanCodePoints` | lib/lws/url.js:341-345 | Trimming blanks and removing tabs and line ends leaves the text of a valid record alone |
| `UrlFixpoint.SkipDot` | lib/lws/url.js:811-811 | The "/." printed before a path that starts with an empty segment is read as nothing |
| `UrlReference.EmptyReference` | lib/lws/url.js:414-643 | An empty reference is the base without its fragment, and fails on a base with an opaque path |
| `UrlReference.FragmentReference` | lib/lws/url.js:414-643 | A fragment reference replaces only the fragment, of any base |
| `UrlReference.QueryReference` | lib/lws/url.js:414-643 | A query reference keeps scheme, authority and path of the base, file URLs included |
| `UrlReference.PathReference` | lib/lws/url.js:371-740 | A path reference that starts with "../" k times drops the last k+1 segments of the base, as many as there are, and appends its own, for every base with a list path; of a file base a lone drive letter stays. A first segment without a colon is not taken for a scheme although the scheme state has read it |
| `UrlReference.SlashReference` | lib/lws/url.js:371-740 | A path reference that starts with one slash replaces the path of the base and keeps everything before it; a file base keeps its drive letter unless the reference has its own |
| `UrlDots.RelativeReference` | lib/lws/url.js:371-740 | However a relative path reference is written, with dot segments anywhere and text still to be encoded, its segments are resolved one by one on top of those of the base but the last, query and fragment are encoded, and everything before the path is kept; file bases included |
| `UrlDots.RootedReference` | lib/lws/url.js:371-740 | The same for a reference that begins with one slash, on top of nothing but a drive letter that a file base keeps |
| `UrlDots.RawPathScan` | lib/lws/url.js:711-740 | The path state over any segments, encoded or not, computes their resolution |
| `UrlDots.DotVanishes` | lib/lws/url.js:711-740 | A single dot segment inside a path makes no difference |
| `UrlDots.UpUndoes` | lib/lws/url.js:711-740 | A double dot segment takes back the named segment before it |
| `UrlDots.FinalDots` | lib/lws/url.js:711-740 | A dot segment at the end leaves an empty segment in its place |
| `UrlDots.PlainResolved` | lib/lws/url.js:711-740 | Segments without dots are appended in order, encoded |
| `UrlShift.TwinRun` | lib/lws/url.js:519-780 | Behind a scheme and its slashes the result of a parse depends only on the text that is left, not on what was read before and not on the base |
| `UrlShift.AuthorityReference` | lib/lws/url.js:354-780 | A reference that begins with two slashes gives, for any text behind them, what the same text gives behind the scheme of the base and a colon, failures included |
| `UrlUserinfo.UserinfoParsed` | lib/lws/url.js:519-548 | In a special URL the text before the last "@" is split at its first colon and percent-encoded, every inner "@" included, and nothing else in the record changes |
| `UrlParser.Parser.OneStep` | lib/lws/url.js:350-778 | One turn of the loop over mutable state, buffer, pointer and URL object does exactly the step of the machine |
| `UrlParser.Parser.Loop` | lib/lws/url.js:350-783 | The loop ends and computes the result of the machine |
| `UrlParser.BasicUrlParse` | lib/lws/url.js:338-783 | The imperative parser returns what the specification parser returns |
| `UrlParser.UrlObject.Shorten` | lib/lws/url.js:321-326 | Drops the last segment, except a lone drive letter of a file URL |
| `UrlParser.Parser.TakeCredentials` | lib/lws/url.js:523-541 | The loop over the buffer at an "@" adds encoded characters to user name or password as the specification says |
| `UrlNatives.UncompressedFaithful` | lib/lws/url.js:158-203 | The inverse contract assumed of native address parsing and printing can be met |
| `PercentCoding.Utf8PercentEncode` | lib/lws/url.js:52-67 | The loop over characters and their bytes computes the encoding |
| `PercentCoding.PercentDecodeBytes` | lib/lws/url.js:69-92 | The loop decodes escapes, and leaves a percent sign that starts none |
| `PercentCoding.DecodeStringWithout` | lib/lws/url.js:98-100 | Text without a percent sign decodes to itself |
| `PercentCoding.EncodedIsKept` | lib/lws/url.js:52-67 | Encoded text has only characters that its set keeps |
| `PercentCoding.EncodeIdempotent` | lib/lws/url.js:52-67 | Encoding twice is encoding once, for every set that keeps the percent sign |
| `FormUrlEncoded.ParseSerialize` | lib/lws/url.js:106-130 | Parsing the serialisation of any list of names and values gives the list back, with empty names and literal "%", "+", "&", "=" and "%20" |
| `FormUrlEncoded.FormDecodeEncode` | lib/lws/url.js:98-126 | Decoding inverts the form encoding of any text |
| `FormUrlEncoded.ParseFormUrlEncodedLoop` | lib/lws/url.js:106-122 | The parsing loop computes the specified list, or fails where decoding throws |
| `Utf8.LossyUtf8Decode` | lws.c:186-268 | The byte loop ends although bad bytes are looked at twice, writes the UTF-8 form of the decoded text, and stays inside a buffer of three times the input |
| `Utf8.LossyEncode` | lws.c:186-268 | The decoder is the identity on well-formed UTF-8 |
| `Utf8.LossyBound` | lws.c:186-268 | Decoded text takes at most three bytes for each byte of input |
| `Utf8.MaximalSubpart` | lws.c:215-262 | A replaced stretch is the longest prefix that some well-formed character starts with |
| `Utf8.CompleteSubpart` | lws.c:215-262 | A stretch is decoded to a character exactly when it is the encoding of that character |
| `Utf8.DecodeIffEncode` | lib/lws/url.js:98-100 | Strict decoding succeeds with a text if and only if the bytes are its encoding |
| `LinkedList.ListAddBetween` | lib/lws/list.js:49-54 | Four pointer writes put a new node into a ring between two neighbours |
| `LinkedList.ListDel` | lib/lws/list.js:81-89 | A node leaves its ring, and its own pointers are cleared |
| `ListSort.ListSortNodes` | lib/lws/list.js:137-206 | In-place bottom-up merge sort of a ring ends and leaves a well-formed ring of the same nodes in the order of the specified merge sort, for any comparator |
| `ListSort.MergeRuns` | lib/lws/list.js:150-190 | The merge of two runs of the old ring builds a chain with the nodes in merged order while the rest of the old ring is still intact |
| `StableSort.SortStable` | lib/lws/list.js:131-206 | With a total preorder the merge sort is sorted and stable |
| `StableSort.SortMultiset` | lib/lws/list.js:131-206 | The merge sort only rearranges |
| `StableSort.StableUnique` | lib/lws/list.js:131-206 | A stable sorted arrangement is unique, so the specification determines the result |
| `ListOps.ListReverse` | lib/lws/list.js:213-232 | Moving the nodes one by one behind the head reverses the ring |
| `ListOps.ListSplice` | lib/lws/list.js:108-125 | The elements of one list are put in front of those of another, all pointers mended |
| `ListOps.List.Sort` | lib/lws/list.js:468-472 | Sorting rearranges the contents, stably for every total preorder |
| `ListOps.List.Reverse` | lib/lws/list.js:458-461 | The contents are reversed |
| `ListOps.List.PushFront` | lib/lws/list.js:390-393 | The contents grow at the front |
| `ListOps.List.PushBack` | lib/lws/list.js:399-402 | The contents grow at the back |
| `ListOps.List.PopFront` | lib/lws/list.js:408-415 | The first element is returned and removed; empty lists are told apart |
| `ListOps.List.PopBack` | lib/lws/list.js:421-428 | The last element is returned and removed; empty lists are told apart |
| `DnsName.DecodeNameLoop` | examples/dns-server/dns-message.js:51-85 | The decoding loop ends on every buffer, pointer cycles included, and returns the specified name and end |
| `DnsName.NextBounds` | examples/dns-server/dns-message.js:51-85 | The end of a name lies behind its offset and inside the buffer |
| `DnsName.NextIsLocal` | examples/dns-server/dns-message.js:58-84 | The end depends only on bytes up to the first pointer |
| `DnsName.TrapFails` | examples/dns-server/dns-message.js:62-71 | No name is read from positions that labels and pointers never leave, such as a pointer cycle |
| `DnsName.BudgetGrows` | examples/dns-server/dns-message.js:67-67 | A larger jump budget does not change a name that was read |
| `DnsName.SuffixPointer` | examples/dns-server/dns-message.js:62-71 | For any budget of jumps, labels followed by a pointer decode to them and what the pointer leads to with one jump less, and fail without a jump left; the name ends behind the pointer |
| `DnsName.PointersFollowed` | examples/dns-server/dns-message.js:51-85 | A chain of k pointers decodes with a budget of jumps if and only if k is within it, to the labels of all its parts |
| `DnsName.PointerLimit` | examples/dns-server/dns-message.js:67-67 | A chain of k compression pointers decodes if and only if k is at most 128 |
| `DnsName.CompressedName` | examples/dns-server/dns-message.js:51-85 | A name whose suffix is replaced by a pointer to that suffix decodes to the full name |
| `DnsName.NameReads` | examples/dns-server/dns-message.js:30-85 | A canonical name written at any place of any message is read back with the position behind it |
| `DnsName.NameRoundTrip` | examples/dns-server/dns-message.js:30-85 | A name is read back as written if and only if it is the root or ends with a dot and has labels of 1 to 63 characters below 256 |
| `DnsName.EncodedReads` | examples/dns-server/dns-message.js:30-85 | What is read of any encoded name: its labels up to the first empty one, their characters cut to bytes, with a final dot |
| `DnsName.NoFinalDot` | examples/dns-server/dns-message.js:30-85 | The name a comes back as a. |
| `DnsName.EmptyLabel` | examples/dns-server/dns-message.js:30-85 | The name a..b. comes back as a. |
| `DnsName.WideCharacter` | examples/dns-server/dns-message.js:30-85 | The character U+0141 comes back as A |
| `DnsName.EncodeNameLoop` | examples/dns-server/dns-message.js:30-45 | The encoding loop writes the labels, or fails at one that is too long |
| `DnsAddress.Ipv4RoundTrip` | examples/dns-server/dns-message.js:87-97 | Printed IPv4 addresses are read back |
| `DnsAddress.Ipv6RoundTrip` | examples/dns-server/dns-message.js:99-125 | Printed IPv6 addresses are read back |
| `DnsAddress.CompressedAddress` | examples/dns-server/dns-message.js:99-106 | "::" stands for the missing zero groups, and is accepted if and only if at most eight groups are written |
| `DnsAddress.Ipv6ToBytesLoop` | examples/dns-server/dns-message.js:99-117 | The loop over the groups fills the sixteen bytes, with blanks, signs, prefixes and rounding as parseInt has them, or fails where the specification fails |
| `DnsRecord.DecodeTxtLoop` | examples/dns-server/dns-message.js:162-173 | The loop over the strings of a TXT record computes the specified list, also where a length runs out of the buffer |
| `DnsRecord.RdataReads` | examples/dns-server/dns-message.js:127-216 | Well-formed record data of every type, written anywhere in a message, is read back |
| `DnsRecord.QuestionReads` | examples/dns-server/dns-message.js:218-232 | A question written anywhere is read back, with class IN where none was given |
| `DnsRecord.RRReads` | examples/dns-server/dns-message.js:234-257 | A record written anywhere is read back with the position behind it |
| `DnsMessage.FlagsReadBack` | examples/dns-server/dns-message.js:267-325 | Header fields in range survive the flag word |
| `DnsMessage.MessageRoundTrip` | examples/dns-server/dns-message.js:259-333 | Every well-formed message is encoded, and decoding gives back its header, questions and three record sections, with counts filled in |
| `DnsCompressed.CompressedMessage` | examples/dns-server/dns-message.js:51-308 | However the names in questions, owners and record data are cut by pointers, a message is read as the one that is meant |
| `DnsCompressed.PlainMessage` | examples/dns-server/dns-message.js:259-333 | The messages of the encoder, which compresses nothing, are among these |
| `DnsCompressed.RRStandsReads` | examples/dns-server/dns-message.js:234-257 | A record whose names are compressed in any way is read with the position behind it |
| `DnsCompressed.PointingReply` | examples/dns-server/dns-message.js:62-71 | A reply whose answer has a pointer to the name in the question for its owner is read as if the name were written out |
| `DnsMessage.QueryAsks` | examples/dns-server/dns-message.js:335-340 | A query built for a canonical name decodes to the question that was meant |
| `DnsMessage.DecodeMessage` | examples/dns-server/dns-message.js:259-308 | The section loops compute the specified message or fail where it fails |
| `DnsBytes.ConcatBytes` | examples/dns-server/bytes.js:4-17 | One fresh buffer holds the contents of all arrays in order |
| `DnsBytes.LabelBytesLoop` | examples/dns-server/bytes.js:25-31 | The loop fills a fresh buffer with the character codes modulo 256 |
| `DnsBytes.BytesToLabelLoop` | examples/dns-server/bytes.js:33-39 | The loop collects one character for each byte |
| `DnsBytes.LabelRoundTrip` | examples/dns-server/bytes.js:25-39 | Text survives the way to bytes and back if and only if its characters are below 256 |
| `DnsCache.Cache.Get` | examples/dns-server/cache.js:5-19 | Answers with what is stored and not expired, and forgets an expired entry |
| `DnsCache.Cache.Set` | examples/dns-server/cache.js:21-25 | Stores records with an expiry, but nothing for an empty list or a time to live that is not positive |
| `DnsCache.ServedWhileFresh` | examples/dns-server/cache.js:5-25 | Records are served until one second before their time is up, unchanged but for a time to live that is what is left, rounded down |
| `DnsCache.KeyInjective` | examples/dns-server/resolver.js:163-165 | Cache keys are equal if and only if types are equal and names are equal up to case |
| `DnsCache.ConsistentSet` | examples/dns-server/resolver.js:167-175 | Storing keeps every entry to records of the name and type of its key |
| `DnsCache.ConsistentGet` | examples/dns-server/resolver.js:203-204 | A lookup keeps that invariant and returns only such records |
| `DnsAnswers.DecodedShaped` | examples/dns-server/dns-message.js:127-178 | Whatever bytes decode, records of types A, NS and CNAME have the data the resolver reads |
| `DnsAnswers.ChainGrows` | examples/dns-server/resolver.js:234-243 | A new alias for the end of a chain extends it, if no alias before has the same target as it is spelled |
| `DnsAnswers.FollowedIsChain` | examples/dns-server/resolver.js:211-245 | The aliases followed over any hops lead from one to the next to targets that are all spelled differently, and replies of these hops told every one |
| `DnsAnswers.LoopIff` | examples/dns-server/resolver.js:234-237 | In every run the resolver gives up on a loop if and only if the last reply has no wanted record but an alias to a target that an earlier alias of the chain has, letter for letter |
| `DnsAnswers.CaseChain` | examples/dns-server/resolver.js:227-243 | Aliases that repeat the name up to case are all followed as long as each is spelled in a new way |
| `DnsAnswers.CaseRunsOut` | examples/dns-server/resolver.js:211-277 | Such a chain is never found to be a loop: it ends with too many hops when every hop gets a reply that goes on with it, and otherwise with a missing reply |
| `DnsAnswers.SpellingsFollowed` | examples/dns-server/resolver.js:227-243 | For every number of hops there are replies of this kind |
| `DnsAnswers.SpellingsSent` | examples/dns-server/dns-message.js:259-333 | Up to 63 of them, each is a message that can be encoded and decodes to itself |
| `DnsAnswers.AnswerIsLinked` | examples/dns-server/resolver.js:226-253 | An answer is a chain of aliases told by replies of its own hops, then all records of the wanted type the last reply has for the end of the chain, and none only if that reply ends the search |
| `DnsAnswers.AnswerRecords` | examples/dns-server/resolver.js:226-249 | Every record of an answer came from a reply, and the answer is a chain followed by records of the wanted type owned by its end |
| `DnsResolver.Resolver.Resolve` | examples/dns-server/resolver.js:200-278 | Ends for arbitrary replies. Answers from the cache exactly when it has something fresh. Otherwise the outcome is the one the replies of its own hops lead to: an answer or denial by the last of them, a loop, all hops used up, a referral of which no server was usable, or a hop whose servers were all asked in vain. The servers of each hop are the roots at the start and behind an alias, and behind a referral those found for it; they were asked in turn until one replied. Every question was put for the end of an alias chain of this name, or of a name server some referral names, to a root server or an address that some reply gave |
| `DnsResolver.Resolver.Hop` | examples/dns-server/resolver.js:211-275 | One hop asks exactly its own servers in turn, takes the branch its reply decides, and goes on with the servers that were found for a referral, or the roots |
| `DnsResolver.Resolver.Ask` | examples/dns-server/resolver.js:211-245 | The servers are asked in turn for the end of the chain up to the first reply, all of them if there is none |
| `DnsResolver.Resolver.Take` | examples/dns-server/resolver.js:226-253 | The branch taken on a reply, with exactly the wanted records or the alias put into the cache |
| `DnsResolver.Resolver.ResolveGlue` | examples/dns-server/resolver.js:181-193 | Returns the first address of a fresh cache entry; else nothing at the glue depth limit, where it asks nobody; else the first address in the outcome of a resolution of its own |
| `DnsResolver.Resolver.NextServers` | examples/dns-server/resolver.js:247-270 | The servers are, for each name server of the referral in order, its glue, if that is not empty, or else what looking it up found, if that is not empty |
| `DnsResolver.Resolver.CollectGlue` | examples/dns-server/resolver.js:255-256 | The table of glue holds for every name in lower case its last address record |
| `DnsTrail.NoneUsable` | examples/dns-server/resolver.js:258-272 | When no server of a referral is usable, none of its name servers has glue, and looking up each of them came to nothing |
| `DnsResolver.Resolver.CacheGet` | examples/dns-server/resolver.js:203-204 | Returns exactly what the cache has for the key at the time of the clock; that has the name and type of the key and was in answers of replies, up to its time to live |
| `DnsResolver.Resolver.QueryServer` | examples/dns-server/resolver.js:146-161 | The reply is that of its own exchange: by UDP, or by TCP where that is missing, undecodable or truncated; none if the question cannot be encoded |
| `DnsLog.LoggedMore` | examples/dns-server/resolver.js:146-161 | The log of questions, their replies and the number of exchanges stay in step: no reply comes from anywhere else |
| `DnsResolver.Resolver.CacheRRs` | examples/dns-server/resolver.js:167-175 | Stores the records under their name and type for the smallest of their times to live, and nothing for an empty list |
| `Crawler.LevelIffPath` | examples/crawler/lib/crawler.js:395-421 | A level holds exactly the URLs at the end of a path of at most that many followed links from a seed |
| `Crawler.Covers` | examples/crawler/lib/crawler.js:377-427 | Once the links of all items before a depth are known, the whole level of that depth is known |
| `Crawler.NewLink` | examples/crawler/lib/crawler.js:412-417 | A link not visited before lies exactly one level below its page |
| `Crawler.Crawler.Start` | examples/crawler/lib/crawler.js:437-461 | The queue gets each valid seed once, without its fragment, at depth 0 |
| `Crawler.Crawler.Discover` | examples/crawler/lib/crawler.js:401-418 | The loop over links keeps the search invariant |
| `Crawler.Crawler.Run` | examples/crawler/lib/crawler.js:377-430 | The crawl ends, fetches no URL twice, in order of depth, exactly the URLs within the depth limit, each at its shortest-path depth |
| `Crawler.Crawl` | examples/crawler/lib/crawler.js:377-461 | The same for a whole crawl from its seeds |
| `WriteQueue.Socket.Flush` | lws-socket.c:103-205 | Ends for any environment, keeps the history invariant over all calls made, clears the queue on failure, asks for a callback if and only if something is left queued, stops early only when a write is held back or its last call accepted nothing, and leaves no entry behind of which all bytes were taken, unless it had none |
| `WriteQueue.Socket.FlushTurn` | lws-socket.c:107-201 | One turn of the loop: held back exactly when the look says so, lost exactly on failure, stalled only after a call that accepted nothing, and otherwise with less left to do |
| `WriteQueue.Socket.WriteHead` | lws-socket.c:112-146 | The bytes and the protocol handed to the write call are those of the specified call, with the final flag taken off a truncated chunk |
| `WriteQueue.Socket.Fire` | lws-protocol.c:689-694 | When the writeable callback fires its request is used up; after the flush a new one is there if and only if something is queued |
| `WriteQueue.HeadMoves` | lws-socket.c:176-202 | After any successful call the first entry leaves the queue exactly when nothing of it is left |
| `WriteQueue.Socket.Write` | lws-socket.c:652-716 | Queues the effective prefix of the data under the right protocol, once, and flushes |
| `WriteQueue.Socket.Clear` | lws-socket.c:60-69 | Drops the queue and the counter |
| `WriteQueue.HttpConserved` | lws-socket.c:103-205 | Accepted bytes followed by queued bytes are the HTTP bytes written, in order |
| `WriteQueue.MessagesConserved` | lws-socket.c:176-195 | Every WebSocket message is handed over in exactly one call, in order |
| `WriteQueue.CallIsGood` | lws-socket.c:112-146 | The call made for an HTTP entry offers at most 16384 bytes and carries the final flag exactly when it reaches the end of a final chunk; a message is offered whole |
| `WriteQueue.PartTaken` | lws-socket.c:176-202 | A partly accepted HTTP chunk keeps queue, counter and calls in step |
| `WriteQueue.MessageHanded` | lws-socket.c:160-195 | A WebSocket message leaves the queue after one call, however much of it was accepted |
| `ClientBody.ClientRequest.AppendHandshakeHeader` | lib/lws/protocols.js:248-260 | Declares the length of the body and marks it pending |
| `ClientBody.ClientRequest.Writeable` | lib/lws/protocols.js:316-326 | However often it fires, the body is queued once; while no write fails, it stops being pending exactly when nothing is queued or it was empty; while something is queued, this callback has asked for another |
| `ClientBody.ClientRequest.OnClientHttpWriteable` | lib/lws/protocols.js:316-326 | The handler alone: queues the body the first time, and ends the pending state only with nothing buffered |
| `ClientBody.NothingQueued` | lib/lws/protocols.js:325-325 | Nothing is buffered of a body if and only if its entry has left the queue or it is empty |
| `ClientBody.HeldBack` | lib/lws/protocols.js:316-326 | On a connection that holds writes back the body stays queued, and the request says it is not pending if and only if the body is empty |
| `ClientBody.AllTaken` | lib/lws/protocols.js:316-326 | With nothing buffered, the accepted bytes are the body |
| `ClientBody.DeclaredIsSent` | lib/lws/protocols.js:248-326 | Once the body is no longer pending, the declared content-length is the number of bytes accepted |
| `ClientBody.SendAll` | lib/lws/protocols.js:310-326 | On a connection that takes at least one byte whenever it is free, and is free again and again, finitely many callbacks send the whole body |
| `SimpleQueue.SimpleQueue.Push` | lib/lws/simple-queue.js:49-71 | The abstract contents grow at the end, across node boundaries; the assertion about the last node holds |
| `SimpleQueue.SimpleQueue.Shift` | lib/lws/simple-queue.js:76-103 | The first element is returned and removed; full nodes have exactly 16384 elements and a successor |
| `SimpleQueue.SimpleQueue.Peek` | lib/lws/simple-queue.js:140-144 | The element the next shift would return |
| `SimpleQueue.SimpleQueue.ForEach` | lib/lws/simple-queue.js:114-134 | Visits exactly the abstract contents in order; its assertions hold |
| `ChunkedResponse.ChunkedRoundTrip` | lib/lws/response.js:124-130 | The chunked coding of any chunks, empty ones included, decodes to their concatenation, and bytes behind the last chunk are not part of the body |
| `ChunkedResponse.ChunkReads` | lib/lws/response.js:124-130 | One written chunk is read back in front of whatever follows it |
| `ChunkedResponse.ServerResponse.Write` | lib/lws/response.js:278-292 | The first write without a declared length switches to chunked coding; each write puts exactly the coded chunk on the wire, behind the end as well |
| `ChunkedResponse.ServerResponse.End` | lib/lws/response.js:297-318 | Ends once; without headers sent before, the declared length is that of the bytes on the wire |
| `ChunkedResponse.ServerResponse.FlushHeaders` | lib/lws/response.js:324-336 | Headers go out once, the content-length apart from the others |
| `ChunkedResponse.ResponseDecodes` | lib/lws/response.js:278-318 | A finished chunked response decodes to all chunks written before its end, and uses up the wire if and only if every chunk written after the end is empty |
| `ChunkedResponse.Respond` | lib/lws/response.js:278-318 | Any writes, of null too, then an end, then any writes: with a write the body is chunked and decodes to the data given before the end; without one the declared length is the number of bytes sent up to the end |
| `ChunkedResponse.LateChunk` | lib/lws/response.js:278-318 | After a chunk, the end and another chunk the decoder stops in front of the coding of the last |
| `DebuggerFrames.FrameShape` | examples/debugger/server.js:52-54 | A frame of a payload below 16^8 bytes has eight digits that say its length, and holds the payload between its newlines |
| `DebuggerServer.ByteQueue.Check` | lib/lws/byte-queue.js:30-44 | A waiting read is answered with the first bytes when there are enough, with null once closed, and otherwise waits |
| `DebuggerServer.ByteQueue.Feed` | lib/lws/byte-queue.js:10-17 | New bytes are appended and may answer the read that waits |
| `DebuggerServer.ByteQueue.Read` | lib/lws/byte-queue.js:24-29 | A read is answered at once when the bytes are there |
| `DebuggerServer.FrameDecoder.Resume` | examples/debugger/server.js:163-189 | Each answered read moves the decoder on by a header or by exactly one payload, or ends it at a payload that is rejected |
| `DebuggerServer.FrameDecoder.Settle` | examples/debugger/server.js:163-189 | When the decoder waits again nothing can be taken off the bytes it keeps |
| `DebuggerServer.Receive` | examples/debugger/server.js:163-199 | For any bytes, cut in any way, the server passes on what the specified loop over all of them takes off |
| `DebuggerServer.ServeFrames` | examples/debugger/server.js:163-189 | Over any part of a stream of frames the loop takes off the next payloads until a frame is incomplete or rejected |
| `DebuggerServer.StuckMore` | examples/debugger/server.js:166-171 | Behind a header that is no number nothing more is passed on, whatever arrives |
| `DebuggerServer.NoNumber` | examples/debugger/server.js:166-171 | Nine bytes without a digit are such a header |
| `DebuggerServer.ReceiveFrames` | examples/debugger/server.js:163-199 | For any payloads and any cutting of their frames, the server passes on exactly the payloads before the first that is no JSON, hence all of them if and only if each is JSON |
| `DebuggerServer.NotJsonEnds` | examples/debugger/server.js:174-178 | With a payload x among the frames the server passes on the payloads before it and nothing behind |
| `DebuggerPage.TurnShrinks` | examples/debugger/demo.js:238-249 | For any buffer, a turn of the loop makes it shorter, or leaves it as it is at a header that states no length or takes nothing off |
| `DebuggerPage.EndsIff` | examples/debugger/demo.js:238-250 | For any buffer, the loop of the page ends if and only if it reaches no buffer with such a header whose payload is accepted |
| `DebuggerPage.RunEnds` | examples/debugger/demo.js:238-250 | What a run reports agrees with that: it reports spinning only where the loop goes on for ever |
| `DebuggerPage.NoDigits` | examples/debugger/demo.js:240-248 | Nine bytes without a digit: every turn hands over an empty payload and the buffer stays as it is, for ever |
| `DebuggerPage.MinusNine` | examples/debugger/demo.js:240-248 | A header that states the length -9 sticks in the same way |
| `DebuggerPage.RunOnFrames` | examples/debugger/demo.js:238-250 | Over any part of a stream of frames a run hands over the next payloads, until a frame is incomplete or rejected, and never spins |
| `DebuggerPage.RejectedAgain` | examples/debugger/demo.js:247-248 | A frame whose payload is rejected stays in front of the buffer and is tried again, whatever arrives later |
| `DebuggerPage.NullStays` | examples/debugger/demo.js:92-112 | The payload null ends the traffic: it is tried again for ever, and nothing behind it is handled |
| `DebuggerPage.TextReceiver.DecodeFrames` | examples/debugger/demo.js:238-250 | The loop over the buffer does what the specified run does, for any bytes |
| `DebuggerPage.TextReceiver.OnMessage` | examples/debugger/demo.js:255-264 | A message is appended to whatever is left and the run goes on from there |
| `DebuggerPage.ReceiveText` | examples/debugger/demo.js:236-264 | For any payloads and any cutting of their frames, the page handles exactly the payloads before the first that its handler throws at, hence all of them if and only if it throws at none, and keeps the frames of the others |
| `JsonFramer.FindJsonObjectEnd` | inspector.js:641-668 | The scanning loop finds what the specified scanner finds |
| `JsonFramer.JsonPass` | inspector.js:641-668 | Any JSON value inside an object is passed over without a change of state, braces and escaped quotes in strings included |
| `JsonFramer.ObjectEnd` | inspector.js:641-668 | From the opening brace of any JSON object text the end found is its closing brace |
| `JsonFramer.EndIsLocal` | inspector.js:641-668 | A found end depends only on the text up to it |
| `JsonFramer.EndIsStable` | inspector.js:641-668 | A found end stays when text is appended |
| `JsonFramer.ExtractAppend` | inspector.js:614-637 | Later text changes nothing about the texts extracted before |
| `JsonFramer.MessageReader.OnText` | inspector.js:604-638 | The extracted texts depend only on the concatenated input, not on how it was split |
| `JsonFramer.StreamIsCut` | inspector.js:604-668 | JSON objects sent one after the other are cut apart exactly |

## Left out

- URL setters, every state override, and the write-back of search parameters.
- Native IPv4 and IPv6 parsing and printing: parameters with the contract that parsing inverts printing (`Faithful`).
- Host names outside ASCII: lower-casing is modelled for ASCII letters, and IDNA is not part of the code.
- Lone surrogates: URL text is a sequence of Unicode scalar values, and the TypeError of decoding ill-formed UTF-8 counts as failure.
- `serializeOrigin`, `excludeFragment` and the public URL classes around the parser.
- Memory allocation failure in the lossy decoder, and the bits of a character's bytes as shifts: they are counted arithmetically.
- List operations that move, replace and merge lists, and the iterators over lists.
- DnsAddress.Ipv4RoundTrip: parts of an address that `Number` reads but that are not digits (signs, exponents, blanks, other radixes) count as bad addresses.
- Utf8.DecodeIffEncode: encodings of surrogates count as ill-formed; the native check behind `toString` is not part of this model.
- DNS text with characters outside the Basic Multilingual Plane, which JavaScript stores as two units.
- Record data objects that are missing altogether, and the `typeName` tables.
- DnsResolver.Resolver.Resolve: sockets, timeouts and promises; replies and clock are arbitrary oracles.
- Crawler.Crawler.Run: calls of `add`, `stop` and `pause` during the crawl, retries, delays, events and the stream of results; a fetch is a fixed function of its URL.
- WriteQueue.Socket.Flush: UDP addresses, logging and the end of an HTTP transaction beyond the flag it sets.
- ClientBody.ClientRequest.Writeable: redirects, session hand-off and the handlers a user may add.
- SimpleQueue.SimpleQueue.ForEach: callbacks that change the queue.
- Request and Response objects, cookies, redirects and header lists beyond the two that steer the body.
- ChunkedResponse.ServerResponse.End: what `respond` makes of a preset content-length that is not a number.
- DebuggerServer.Receive: a byte order mark at the start of a header or payload, which some text decoders remove.
- DebuggerPage.ReceiveText: whether the handler throws is a fixed predicate on the payload; in the page it may depend on earlier messages.
- What text decoders make of payloads in the debugger and of input in the inspector, and parsing the JSON that was cut out.
- JsonFramer.ObjectEnd: the grammar of numbers is wider than that of RFC 8259, which only makes the statement stronger.
- Regular-expression tools, terminal interfaces, TLS, vhosts, event loops and all other foreign calls.
