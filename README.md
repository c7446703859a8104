# laitos daemons: a Dafny model of the DNS filter, the tunnel handshake and the Twitter page window

This project models three parts of laitos, a personal web/mail/DNS server written in Go:

- The **DNS daemon** (`frontend/dnsd/dnsd.go`). It answers queries for ad-server names with 0.0.0.0 and forwards the rest. The model covers:
  - the configuration check and shard-queue creation of `Initialise`;
  - the client allow-list, which refreshes itself with the host's public IP address;
  - the two ad-server list parsers (PGL and MVPS) and the blacklist built from them;
  - the packet codec: `RespondWith0` builds the fake answer, and `ExtractDomainName` reads the queried name and its parent domains out of a raw query.
- The **tunnel daemon** (`frontend/sockd/sockd.go`). The model covers:
  - the destination request parsed from a 269-byte buffer, and the NUL check before dialling;
  - the MD5-based key derivation of the cipher and the per-connection cipher copy;
  - the daemon's configuration check.
- The **Twitter feature** (`feature/twitter.go`). The model covers:
  - the skip/count window of `GetFeeds`, the slice taken by `ExtractTweets` and the reply text;
  - the reply of `Tweet`, and `IsConfigured` as a predicate on the four credentials.

Modules:

| module | contents |
|---|---|
| `Wrappers` | `Option` and `Result` |
| `Bytes` | `Byte` and big-endian decoding |
| `Strings` | the parts of Go's `strings` package the daemons use: `Index`, `IndexRune`, `HasPrefix`, `TrimSpace`, `Split` |
| `Strconv` | `Atoi` and `Itoa` over 64-bit `int` |
| `DnsCodec` | the DNS packet codec |
| `AdBlockLists` | the PGL and MVPS parsers |
| `Dnsd` | class `DNSD` |
| `Sockd` | request parsing, class `Cipher`, class `Sockd` |
| `Twitter` | the Twitter feature |

Code that changes state in place is modelled imperatively. That covers the daemons' `Initialise` methods, the allow-list refresh, the blacklist rebuild, the answer buffer of `RespondWith0`, the request buffer of `ParseRequest` and the key buffer of `Cipher.Initialise`. Each such method is proved against a specification function, and the lemmas state the properties of those functions.

## Model

| member | source | states |
|---|---|---|
| `DnsCodec.RespondWith0` | frontend/dnsd/dnsd.go:236-255 | Returns exactly the laid-out blackhole answer: nothing for a query under 14 bytes; otherwise one byte-wise copy into a fresh buffer that keeps the ID, sets flags 0x8180 and ANCOUNT 1, and appends the 0.0.0.0 record |
| `DnsCodec.BlackholeResponseLayout` | frontend/dnsd/dnsd.go:240-253 | The answer is 16 bytes longer than the query. It keeps the ID, bytes 4-5 and everything from byte 8, and its last 16 bytes are the 0.0.0.0 record |
| `DnsCodec.BlackholeResponseDecodes` | frontend/dnsd/dnsd.go:230-253 | A resolver decodes the answer as: same ID and section counts except ANCOUNT 1; flags QR, RD and RA set with RCODE 0; last record of type A, class IN, TTL 1466, address 0.0.0.0, naming offset 12 |
| `DnsCodec.EdnsQueryAnswerMisplaced` | frontend/dnsd/dnsd.go:248-253 | For the sample query, which carries an EDNS OPT record, the record right after the question in the answer is the OPT record (TYPE 41), and the 0.0.0.0 record comes last |
| `DnsCodec.AnswerSectionHoldsBlackhole` | frontend/dnsd/dnsd.go:236-255 | In the corrected answer the question is unchanged and still walkable, the 0.0.0.0 record directly follows it, ANCOUNT is 1, and the query's trailing records follow |
| `DnsCodec.AfterQuestionAgreesWithoutTrailer` | frontend/dnsd/dnsd.go:236-255 | When nothing follows the question, the corrected answer equals RespondWith0's answer |
| `DnsCodec.GithubQueryQuestionEnd` | frontend/dnsd/dnsd.go:420-423 | The sample query's question ends at offset 28, and its header announces one additional record |
| `DnsCodec.ExtractDomainName` | frontend/dnsd/dnsd.go:264-303 | Returns exactly `DomainNames(packet)`: the name read between offset 13 and the byte before the first 0,1,0,1 marker, then its chain of suffixes |
| `DnsCodec.RestoreFullStops` | frontend/dnsd/dnsd.go:277-287 | The copied name bytes come out as text in which every separator byte (up to 44, 58-64 and 91-96) has become '.' |
| `DnsCodec.DomainNamesEmpty` | frontend/dnsd/dnsd.go:266-291 | Nothing is extracted exactly when one of these holds: the packet is under 14 bytes, the marker is missing or at the very start of packet[13..], or the name would exceed 1024 bytes |
| `DnsCodec.DomainNamesFirst` | frontend/dnsd/dnsd.go:270-294 | The first extracted name is the bytes from 13 up to one before the first marker occurrence, with separators read as '.', and is at most 1024 long |
| `DnsCodec.SuffixChainLinks` | frontend/dnsd/dnsd.go:295-302 | Each later name is its predecessor without its first label and '.'. The chain stops at the first name whose first '.' is missing, leading or last |
| `DnsCodec.SuffixChainSuffixes` | frontend/dnsd/dnsd.go:295-302 | Every later name is a strictly shorter suffix of the first |
| `DnsCodec.DropFirstLabelCut` | frontend/dnsd/dnsd.go:296-300 | The part removed is exactly the first label, which is non-empty, plus the '.' after it |
| `DnsCodec.TwoLabelChain` | frontend/dnsd/dnsd.go:295-302 | A two-label name yields itself, then its last label |
| `DnsCodec.GithubQueryDomainNames` | frontend/dnsd/dnsd.go:420-423 | The sample UDP query yields exactly ["github.com", "com"] |
| `DnsCodec.GithubQueryMarker` | frontend/dnsd/dnsd.go:268 | In the sample query, the marker search from offset 13 finds index 11 |
| `AdBlockLists.GetAdBlacklistPGL` | frontend/dnsd/dnsd.go:174-192 | A failed fetch is an error. A body split at '\n' into fewer than 100 lines is refused with that count. Otherwise the result is every line trimmed, in order |
| `AdBlockLists.PglRefusedIff` | frontend/dnsd/dnsd.go:183-186 | A PGL body is refused exactly when it holds fewer than 99 newlines |
| `AdBlockLists.PglNamesClean` | frontend/dnsd/dnsd.go:183-191 | An accepted body with n newlines gives n + 1 (at least 100) names, each trimmed and without a newline |
| `AdBlockLists.GetAdBlacklistMVPS` | frontend/dnsd/dnsd.go:195-228 | A failed fetch is an error. Otherwise the result is the name of every line, in order. Fewer than 100 names is refused with that count |
| `AdBlockLists.MvpsName` | frontend/dnsd/dnsd.go:206-221 | A name read from a line is shorter than the line by at least the length of the "0.0.0.0" marker; its cleanliness is `MvpsNameClean` and its round trip `MvpsNameOfEntry` |
| `AdBlockLists.MvpsNameNeedsMarker` | frontend/dnsd/dnsd.go:207-211 | A line without "0.0.0.0" names nothing |
| `AdBlockLists.MvpsNameClean` | frontend/dnsd/dnsd.go:206-221 | A name read from a line is trimmed, holds no '#', and uses only characters of the line |
| `AdBlockLists.MvpsNameOfEntry` | frontend/dnsd/dnsd.go:206-221 | Parsing the hosts entry "0.0.0.0 name" gives back the name, for any non-empty trimmed name without '#' |
| `AdBlockLists.MvpsNamesExact` | frontend/dnsd/dnsd.go:205-222 | The MVPS list holds exactly the names of the lines (both directions) |
| `AdBlockLists.MvpsNamesClean` | frontend/dnsd/dnsd.go:205-227 | An accepted MVPS list has at least 100 names, each trimmed and free of '#' and '\n' |
| `AdBlockLists.SomesSound` | frontend/dnsd/dnsd.go:221 | Every name collected comes from some line that named it |
| `AdBlockLists.SomesComplete` | frontend/dnsd/dnsd.go:221 | The name of every line that names one is collected |
| `Strings.Split` | frontend/dnsd/dnsd.go:183 | strings.Split with a one-character separator always yields at least one piece (the whole text when the separator is absent) |
| `Strings.TrimSpace` | frontend/dnsd/dnsd.go:189 | strings.TrimSpace gives a result no longer than the input that neither starts nor ends with white space |
| `Strings.SplitCount` | frontend/dnsd/dnsd.go:183 | Splitting at a separator gives one more piece than there are separators |
| `Strings.JoinSplit` | frontend/dnsd/dnsd.go:183 | Joining the pieces of a split gives back the text |
| `Strings.SplitJoin` | frontend/dnsd/dnsd.go:183 | Splitting separator-free pieces joined by the separator gives back the pieces |
| `Strings.SplitPieces` | frontend/dnsd/dnsd.go:206 | No piece of a split holds the separator |
| `Strings.TrimSpaceFixed` | frontend/dnsd/dnsd.go:189 | TrimSpace leaves a string unchanged exactly when it neither starts nor ends with white space |
| `Strings.TrimSpaceWithin` | frontend/dnsd/dnsd.go:189 | TrimSpace keeps one contiguous piece of the text, and everything cut off at either end is white space |
| `Strings.IndexOfFirst` | frontend/dnsd/dnsd.go:268 | bytes.Index returns the first occurrence, and -1 exactly when there is none |
| `Strings.IndexOfCharFirst` | frontend/dnsd/dnsd.go:296 | strings.IndexRune returns the first occurrence, and -1 exactly when there is none |
| `Dnsd.DNSD.constructor` | frontend/dnsd/dnsd.go:45-67 | A daemon holds its configured fields, with an empty blacklist, no queues and no refresh yet |
| `Dnsd.DNSD.ConfigError` | frontend/dnsd/dnsd.go:72-90 | The configuration passes exactly when the address is set, some port is positive, some forwarder is set, PerIPLimit is at least 10, and the prefix list is non-empty with no empty entry |
| `Dnsd.DNSD.Initialise` | frontend/dnsd/dnsd.go:70-125 | A bad configuration returns its error and changes nothing. Otherwise the blacklist is emptied and PerIPLimit/10 forward (capacity 16) and black-hole (capacity 4) slots are made. They are filled up to the first failed dial, which reports an error. On full success the allow-list is refreshed |
| `Dnsd.AcceptedConfig` | frontend/dnsd/dnsd.go:82-90 | An accepted configuration creates at least one shard, and its allow-list does not admit every client |
| `Dnsd.DNSD.AllowMyPublicIP` | frontend/dnsd/dnsd.go:128-156 | Nothing happens unless more than 1800 s have passed since the last refresh. Then the time is recorded and a non-empty public IP not yet listed is appended |
| `Dnsd.AllowListKeeps` | frontend/dnsd/dnsd.go:146-155 | The refresh keeps every entry in place and adds at most one |
| `Dnsd.AllowListHasOwnIP` | frontend/dnsd/dnsd.go:146-155 | After a refresh with a known public IP, the host itself is allowed |
| `Dnsd.AllowListMonotone` | frontend/dnsd/dnsd.go:146-155 | A client allowed before a refresh stays allowed |
| `Dnsd.AllowListIdempotent` | frontend/dnsd/dnsd.go:146-155 | Refreshing twice with the same IP adds it at most once |
| `Dnsd.AllowListNoDuplicates` | frontend/dnsd/dnsd.go:146-155 | A list without repeated entries keeps that property |
| `Dnsd.DNSD.CheckAllowClientIP` | frontend/dnsd/dnsd.go:159-171 | After the refresh, a client is admitted exactly when a listed prefix is a literal prefix of its address |
| `Dnsd.EmptyPrefixAllowsAll` | frontend/dnsd/dnsd.go:85-89 | An empty prefix admits every client, and only an empty prefix admits the empty address. This is why Initialise refuses one |
| `Dnsd.TextualPrefixMatch` | frontend/dnsd/dnsd.go:165-168 | Matching is textual: the prefix "10.0.0.1" admits 10.0.0.123 |
| `Dnsd.FirstFailure` | frontend/dnsd/dnsd.go:105-118 | The shard loop stops at the first failed dial: every earlier dial succeeded, and that one failed |
| `Dnsd.DNSD.AddAll` | frontend/dnsd/dnsd.go:322-329 | Filling the blacklist map from a list adds exactly that list's names to what was there, and changes nothing else |
| `Dnsd.DNSD.UpdatedAdBlockLists` | frontend/dnsd/dnsd.go:305-333 | The blacklist is rebuilt as exactly the names of the lists that downloaded. It is empty when both downloads fail |
| `Dnsd.Entries` | frontend/dnsd/dnsd.go:322-331 | A failed list contributes no names; a successful one contributes exactly its names |
| `Dnsd.DNSD.NamesAreBlackListed` | frontend/dnsd/dnsd.go:399-410 | True exactly when one of the names is on the blacklist |
| `Sockd.ParseRequest` | frontend/sockd/sockd.go:237-278 | Reading the request through the 269-byte buffer gives exactly `DecodeRequest` of the connection's bytes |
| `Sockd.DestinationInBuffer` | frontend/sockd/sockd.go:267-277 | The address and big-endian port taken from the buffer are what the buffered request decodes to |
| `Sockd.ReadFull` | frontend/sockd/sockd.go:241-265 | The read succeeds exactly when enough bytes remain. It fills only its slice, in order, and advances the read position by the slice length |
| `Sockd.EncodedLength` | frontend/sockd/sockd.go:249-257 | An IPv4 request is 7 bytes, an IPv6 request 19 and a name request 4 + L. None exceeds 259, so all fit the 269-byte buffer |
| `Sockd.DecodeEncode` | frontend/sockd/sockd.go:246-277 | Decoding the request for any well-formed destination gives back that destination, whatever bytes follow it |
| `Sockd.DecodeIsEncoded` | frontend/sockd/sockd.go:246-277 | Every decoded request is the encoding of its destination, up to the high nibble of the type byte |
| `Sockd.DecodeRequestPrefix` | frontend/sockd/sockd.go:263-276 | Decoding reads no byte past the request |
| `Sockd.TruncatedRefused` | frontend/sockd/sockd.go:241-265 | Any proper prefix of a request is refused as truncated, with no destination |
| `Sockd.TypeHighBitsIgnored` | frontend/sockd/sockd.go:246-247 | Only the low nibble of the type byte matters |
| `Sockd.UnknownTypeRefused` | frontend/sockd/sockd.go:258-260 | A low nibble other than 1, 3 or 4 is refused as an unknown type, carrying that value |
| `Sockd.DialTarget` | frontend/sockd/sockd.go:288-302 | A destination is dialled exactly when the request decodes and its name holds no NUL byte, and it is the decoded one |
| `Sockd.DeriveKey` | frontend/sockd/sockd.go:97-108 | The buffer loop yields the first keyLength bytes of the digest chain md5(p), md5(d1 + p), ... |
| `Sockd.TwoDigests` | frontend/sockd/sockd.go:97-108 | Two digests of the chain are md5(p) followed by md5(md5(p) + p) |
| `Sockd.Cipher.Initialise` | frontend/sockd/sockd.go:93-110 | Sets KeyLength 32 and IVLength 16, and the key md5(p) + md5(md5(p) + p). IV and streams are untouched |
| `Sockd.Cipher.Copy` | frontend/sockd/sockd.go:154-159 | A fresh cipher with the same key, IV and lengths and no streams. The original is unchanged |
| `Sockd.Cipher.constructor` | frontend/sockd/sockd.go:58 | A cipher with every field at its zero value |
| `Sockd.Sockd.constructor` | frontend/sockd/sockd.go:39-46 | A daemon holds its configured address, port and password, with no cipher yet |
| `Sockd.Sockd.ConfigError` | frontend/sockd/sockd.go:48-57 | The configuration passes exactly when the address is set, the port is at least 1 and the password has at least 7 bytes |
| `Sockd.Sockd.Initialise` | frontend/sockd/sockd.go:48-61 | A bad configuration returns its error and keeps the cipher. Otherwise a fresh cipher is installed: key md5(p) + md5(md5(p) + p), key length 32, IV length 16, an empty IV and no streams, so the first stream generates its IV |
| `Strconv.Atoi` | feature/twitter.go:96-103 | strconv.Atoi only ever yields a 64-bit integer, so a number out of that range is refused; the value read is given by `Strconv.AtoiOfDigits` |
| `Strconv.Itoa` | feature/twitter.go:165 | strconv.Itoa writes a digit run for a non-negative number, and '-' followed by a digit run for a negative one |
| `Strconv.AtoiItoa` | feature/twitter.go:165 | Atoi reads back what Itoa writes, for every 64-bit integer |
| `Strconv.AtoiOfDigits` | feature/twitter.go:94-103 | A digit run is accepted exactly when its value fits in 64 bits, and is then read as that value |
| `Strconv.DigitsValueOfDigits` | feature/twitter.go:165 | The decimal digits of n read back as n |
| `Strconv.Wrap64` | feature/twitter.go:116 | The 64-bit result is congruent to the exact one modulo 2^64, and equals it when in range |
| `Twitter.PageWindowAsWritten` | feature/twitter.go:106-123 | The as-written window (with the wrap-around in `count += skip`) still has skip in [0,199] and count in [1,200] |
| `Twitter.OverflowedWindowEmptyPage` | feature/twitter.go:96-190 | Captures "5" and Itoa(MaxInt64 - 2) give window (5, 1) as written, so the API is asked for one tweet and the page is empty. The corrected window (5, 200) shows every tweet from the sixth on |
| `Twitter.OverflowedWindowPanics` | feature/twitter.go:96-189 | The same window (5, 1) makes the slice panic, but only when the API returns six or more tweets although asked for one |
| `Twitter.AsWrittenHonouredCountNeverPanics` | feature/twitter.go:106-190 | Even as written, ExtractTweets never panics on a timeline no longer than the count sent to the API |
| `Twitter.PageWindow` | feature/twitter.go:106-123 | The corrected window always has skip in [0,199] and count in [1,200] |
| `Twitter.PageWindowOrdered` | feature/twitter.go:106-123 | For the corrected window `PageWindow` (exact `count + skip`, no 64-bit wrap) and non-negative inputs: 0 <= skip <= count <= 200, skip clamped to 199, and count = count0 + skip whenever that is at most 200 (except the 0, 0 default). The code as written breaks the ordering; see `Twitter.OverflowedWindowEmptyPage` |
| `Twitter.PageWindowAsWrittenAgrees` | feature/twitter.go:106-123 | Whenever count + 200 cannot overflow, the as-written window equals the corrected one |
| `Twitter.ExtractTweets` | feature/twitter.go:175-191 | Succeeds only on a decoded timeline, with at most its number of tweets |
| `Twitter.ExtractTweetsInRange` | feature/twitter.go:180-190 | With 0 <= skip <= count it never panics. It gives nothing when skip is past the end, else the min(count, len) - skip tweets from skip on |
| `Twitter.ExtractTweetsPanicIff` | feature/twitter.go:180-190 | The slice panics exactly when skip is within the timeline and is negative or beyond count |
| `Twitter.GetFeeds` | feature/twitter.go:90-144 | The reply is exactly `FeedsOutcome`: a bad number is refused, then the window, the tweets in it, and one "name text" line per tweet |
| `Twitter.FeedsNeverPanic` | feature/twitter.go:92-134 | For digit-run captures, the corrected GetFeeds (built on `PageWindow`) never panics, and it refuses with ErrBadTwitterParam exactly when a number exceeds 64 bits. As written, it can panic only when the API returns more tweets than asked for; see `Twitter.OverflowedWindowPanics` and `Twitter.AsWrittenHonouredCountNeverPanics` |
| `Twitter.FeedTextLines` | feature/twitter.go:137-142 | When no author or text holds a newline, the reply has exactly one line per tweet |
| `Twitter.FeedLineNewlines` | feature/twitter.go:140 | Each reply line holds exactly one newline when author and text hold none |
| `Twitter.PostTweet` | feature/twitter.go:147-166 | Fails exactly on empty content, with ErrBadTwitterParam |
| `Twitter.PostTweetReply` | feature/twitter.go:164-165 | The reply to a posted tweet is a digit run that reads back as the content's length |

## Left out

- **Network I/O and concurrency:** sockets, listeners, goroutines, channels and their traffic, `StartAndBlock`, `Stop`, `PipeAndCloseConnection`, the connection counter, mutexes, logging and I/O deadlines.
  - Queues are modelled only by their capacity.
  - Each dial's outcome and the public-IP lookup are parameters.
- **The clock:** allowMyPublicIP reads it twice (the check and the deferred store). The model uses one instant `now` for both.
- **HTTP downloads:** the PGL and MVPS downloads are `Option` bodies (`None` for a transport error or a non-2xx status). The Twitter requests, their OAuth signature and JSON decoding are left out; GetFeeds receives the decoded timeline (`None` when it is not valid JSON).
- **Twitter HTTP errors:** the HTTP error path of GetFeeds and Tweet (`HTTPErrorToResult`, not part of this model) is left out. So are the request URL text, `SelfTest`, `Initialise`, `Trigger` and `Execute`; `Command` is not part of this model.
- **The regular expression** `(\d+)[^\d]+(\d+)`: GetFeeds receives its two captures, or `None` when it did not match. The digit-run property of the captures is a hypothesis of `Twitter.FeedsNeverPanic`.
- **The rate limiter** (`env.RateLimit`) is not part of this model; only its test is available.
- **Tunnel crypto and streams:**
  - AES-CTR is left out. A stream is the key and IV it was made from.
  - Random IV generation, `Read`/`Write`, `Encrypt`/`Decrypt` and `InitEncryptionStream`/`InitDecryptionStream` are left out.
  - MD5 is any function to 16-byte digests, passed as a parameter.
  - Printing the derived key is left out.
- **Destination text:** `net.IP.String` and `net.JoinHostPort` stay abstract. ParseRequest returns a structured destination. The NUL check is taken on the domain name, since formatted IP addresses and port digits never contain NUL.
- **Sockd.ParseRequest:** for a truncated request, the bytes that io.ReadFull did deliver are copied, but the caller sees only the error.
- **Strings.TrimSpace:** treats only ASCII white space as space. Go also trims Unicode spaces (U+0085, U+00A0 and others).
- **Go strings** are byte strings. Here a `string` holds one character per byte.
- **Dnsd.DNSD.UpdatedAdBlockLists:** follows the code, which clears the blacklist before refilling it. When both downloads fail, the blacklist ends up empty rather than keeping its old entries.
- **DnsCodec.ExtractDomainName:** follows the code. The chain runs down to the last label (for "github.com" it ends with "com").
- **AdBlockLists.GetAdBlacklistPGL:** counts raw lines, empty ones included, against the threshold of 100. This follows the code.
- **Twitter.IsConfigured:** modelled as a predicate on the four credentials. Its only caller in the file, SelfTest, is left out, so no property beyond the definition is stated.
- **Twitter.GetFeeds:** uses the corrected window `Twitter.PageWindow`. The as-written window with its 64-bit wrap-around is `Twitter.PageWindowAsWritten`; see Findings.

## Findings

| source | as written | input that shows it | evidently intended | confidence | as-written member | corrected member |
|---|---|---|---|---|---|---|
| frontend/dnsd/dnsd.go:248-253 | RespondWith0 copies the whole query after the header, then appends the 0.0.0.0 record at the very end | The sample `githubComUDPQuery` carries an EDNS OPT record after its question. In the answer, the record at offset 28 (right after the question) is that OPT record (TYPE 41), and the 0.0.0.0 record sits last, in the additional section | The 0.0.0.0 record placed right after the question, where ANCOUNT 1 says the answer section is, with any trailing records after it | not executed; medium (resolvers may tolerate it) | `DnsCodec.EdnsQueryAnswerMisplaced` | `DnsCodec.AnswerSectionHoldsBlackhole` |
| feature/twitter.go:116 | `count += skip` on 64-bit `int`, and Atoi accepts counts up to MaxInt64 | Captures "5" and "9223372036854775805" give skip 5 and count 1 after the wrap. The API is asked for one tweet, so the page is empty instead of up to 195 tweets. `tweets[5:1]` panics only if the API returns six or more tweets despite count=1 | `0 <= skip <= count <= 200` for every command, so the API is asked for the whole window | not executed; medium | `Twitter.OverflowedWindowEmptyPage` | `Twitter.PageWindowOrdered` |
