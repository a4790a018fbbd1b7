# DMARC-Geeks: a verified model of its core logic

This project models the parts of the DMARC-Geeks web application that decide something: how many DNS lookups an
SPF record costs, how the threat test encrypts its archive and when it may send mail, when an address counts as
blacklisted and when that is reported, how many requests a client may make, how the `.env` file is rewritten, how
reports are stored and aggregated, and how a test mail is scored. Everything is written in Dafny 4.11; to check it,
use `dafny verify dfyconfig.toml`.

| files | part of the application |
|---|---|
| `Text`, `TextLaws`, `Options`, `Lists`, `Bits`, `Graph`, `Tally` | string operations, shared notions about sequences, exclusive or on naturals, reachability, ordered dictionaries and the stable sort |
| `SpfTerms`, `SpfWalk`, `SpfForms`, `SpfLaws`, `SpfTree` | `app/dns_utils.py`: the recursive SPF lookup counter |
| `ZipCrypto`, `ZipNames`, `ZipContainer`, `ZipVectors` | `app/threattest.py`: the PKWARE stream cipher, the encodings of names and the ZIP writer |
| `Dnsbl`, `DnsblCache`, `DnsblLaws` | `app/blacklist.py`: resolvers, failover and the two caches |
| `AlertJob`, `AlertLaws` | `app/blacklist_job.py`: stability rule, alerts and cooldown |
| `TokenBucket` | `app/rate_limit.py` |
| `EnvFile`, `EnvForms`, `EnvLaws`, `EnvBreaks` | `app/env_file.py` |
| `Ingest`, `IngestLaws` | `app/ingest.py` |
| `Stats`, `StatsLaws` | `app/stats.py` |
| `VerifyFlow`, `VerifyForms`, `VerifyLaws` | `app/routers/threattest.py`: the double opt-in |
| `Score`, `ScoreForms`, `ScoreLaws` | `app/mt_scorer.py` |

Code that changes state is a class or a method with loops, proved equal to a specification function; the laws about
that function are lemmas. A file named `...Laws` holds what is promised over whole runs. A file named `...Forms`, and
`ZipVectors`, ties the specification to the characters, bytes and figures themselves: which tokens are charged, every
byte of an archive, known answers of the cipher, and the points of every finding.

## What the proofs show about the code

Most promises hold as intended. These do not, and the project states exactly when they do:

- **SPF count.** The docstring of `_count_spf_lookups` claims the count of section 4.6.4 of RFC 7208. A domain that is
  included twice is counted once, so the count can stay below the tree walk's (`SpfTree.DiamondIsUndercounted`, for
  every size). It equals the tree walk's if and only if no record that costs lookups is reached twice, a condition on
  the zone alone (`SpfTree.CountAgainstTree`). Nor is a term charged that carries a prefix length instead of a colon,
  such as a/24 or mx/24 (`SpfForms.PrefixLengthIsFree`); exactly the redirects and the mechanisms named include, a, mx,
  exists and ptr are (`SpfForms.CostIsOfChargedKinds`). Against the cost of all reachable records, each evaluated once, the
  verdict is exact in spite of the depth limit (`SpfLaws.VerdictIsExact`).
- **Archive self-test.** `encrypted_zip` returns its archive if and only if the fields fit, the password is not empty,
  and the name is ASCII without NUL and does not end like a ZIP64 locator (`ZipContainer.EncryptedZip`). Other names are
  written as UTF-8 without the flag for it, so the reader decodes them as code page 437, cuts them at a NUL and does not
  find the entry; an empty password counts as none (`ZipContainer.UmlautIsNotFound`, `ZipContainer.NulIsNotFound`,
  `ZipContainer.EmptyPasswordIsRefused`). A name whose last 20 bytes start with the signature of the locator makes the
  reader see an archive on several disks (`ZipContainer.ArchiveLocator`, with an example in
  `ZipContainer.LocatorIsNotFound`).
- **Blacklist alerts.** The job's docstring promises an alert when a previously clean address turns up on a critical
  list. The window of the stability rule contains the previous check, so with the default threshold of 2 an address
  that was clean at its previous check never alerts (`AlertLaws.CleanToListedAlertsOnlyAtOne`, with an example in
  `AlertLaws.CleanThenCriticalIsSilent`). For the same reason the resolved event, for which the job has a mail text, is
  never sent (`AlertLaws.ListedToCleanResolvesOnlyAtOne`, `AlertLaws.ResolvedIsNeverSent`).
- **Stability of alerts.** A threshold of n is to report an address only after n agreeing checks in a row
  (`app/env_file.py:70-71`). The window is cut to the checks that exist, so with the default threshold the first check
  of an address alerts on one observation (`AlertLaws.FirstCheckAlerts`), and so it does with every threshold
  (`AlertLaws.FirstCheckIgnoresThreshold`). An alert rests on n agreeing checks if and only if the address had at least n - 1
  checks before (`AlertLaws.AlertNeedsEnoughChecks`).
- **Ingest replay.** A report that was ignored comes back as a duplicate if and only if the same payload holds a report
  with its key that can be placed (`IngestLaws.ReplayStoresNothing`, with a family of inputs in
  `IngestLaws.IgnoredCanReplayAsDuplicate`).
- **`.env` rewriting.** A value may contain line breaks, since the settings page strips only its ends
  (`app/routers/admin.py:500`). A second identical write keeps the text if and only if no value contains a line break
  and it is not the case that nothing had to be appended and the file ended in two empty lines
  (`EnvBreaks.SecondWriteKeepsText`). With a line break each write adds lines to the file, otherwise an empty line is
  dropped (examples: `EnvBreaks.BrokenValueGrows`, `EnvLaws.SecondWriteDropsALine`). The updates are read back as given,
  and a second write reports no change, if and only if no value contains a line break, surrounding whitespace or a
  pair of quotes around it (`EnvLaws.UpdatesAreReadBackIffGood`, `EnvLaws.SecondWriteReportsNothing`).
- **Sankey diagram.** An alignment node is balanced if and only if no row has a disposition whose title-cased text is
  the name of that node (`StatsLaws.AlignmentNodesBalance`, with an example in
  `StatsLaws.TitledDispositionUnbalances`); dispositions are taken from reports unchecked.
- **Totals of the charts.** Counts are taken from reports unchecked too (`app/parser.py:154`), so they may be negative.
  For rows with a day, all charts show the same total if and only if none is (`StatsLaws.AllViewsAgree`). The daily
  stack drops the other senders unless they have a positive volume on some day, so a day adds up if and only if they
  are shown or have no volume on it (`StatsLaws.StackAddsUpPerDay`, with an example in `StatsLaws.NegativeCountIsNotStacked`).

## Model

| member | source | states |
|---|---|---|
| SpfTerms.CostingTermsAreClassified | app/dns_utils.py:296-316 | the structure analysis lists exactly the redirects that the counter follows, and every term that costs a lookup with its own qualifier, kind and value among the mechanisms, or with its target among the redirects; it has at least as many entries as there are such terms |
| SpfTerms.AnalyzeSpfStructure | app/dns_utils.py:291-323 | one pass collects mechanisms, redirects, the last qualifier of `all` and the explanation as the fold over the tokens that CostingTermsAreClassified compares with the counter |
| SpfForms.CostIsOfChargedKinds | app/dns_utils.py:240-268 | for all tokens, the counter charges for each redirect and for exactly those listed mechanisms that are include, a, mx or exists or start with ptr |
| SpfForms.PrefixLengthIsFree | app/dns_utils.py:254-261 | a term a/... or mx/..., in any case and with any sign, is not charged |
| SpfForms.AddressIsListed | app/dns_utils.py:301-316 | an ip4 or ip6 range, in any case, is listed with its sign, kind and value and costs nothing |
| SpfForms.AllIsPolicy | app/dns_utils.py:301-307 | the term all, in any case, sets the policy to its sign, or to plus without one, and costs nothing |
| SpfForms.VersionInAnyCase | app/dns_utils.py:221-223 | a record is recognised by its version in any case |
| SpfForms.BreakdownNamesTerms | app/dns_utils.py:240-268 | the breakdown of a call lists the charged terms of its record in their order, each with its own type and target, the domain itself where the term names none |
| SpfForms.ChainIsCutAtThirteen | app/dns_utils.py:217-218 | along any chain of includes the first thirteen are counted, and the walk is cut if and only if there are more than twelve |
| SpfForms.ErrorsOfCalls | app/dns_utils.py:215-218 | a call reports a loop exactly for a visited domain, and too great a depth exactly below level 12 for another one |
| TextLaws.CharactersAreListed | app/dns_utils.py:231 | whitespace and line ends are the 29 and 10 characters that Python takes for them |
| TextLaws.SplitGivesWords | app/dns_utils.py:231 | splitting words with any whitespace before, between and after them gives the words |
| TextLaws.StripTakesPads | app/env_file.py:186 | stripping takes off any whitespace around a text and nothing else |
| TextLaws.LowerOfCasing | app/dns_utils.py:238 | lower-casing undoes any use of capital letters |
| SpfWalk.FirstSpf | app/dns_utils.py:221-227 | the result is the first TXT record that starts with v=spf1, and empty exactly if there is none |
| SpfWalk.CountSpfLookups | app/dns_utils.py:200-270 | count, breakdown, error, the shared visited set and the order of TXT fetches are those of the specified walk, from any visited set and depth |
| SpfWalk.CountTerms | app/dns_utils.py:229-270 | the token loop keeps count, breakdown and visited set in step with the walk over the terms read so far |
| SpfWalk.CountTerm | app/dns_utils.py:240-268 | one turn of the loop, with its recursive call, adds what one term adds to the walk |
| SpfLaws.CountIsConserved | app/dns_utils.py:215-270 | every call returns the sum of the costing terms in the records of the domains it newly visits, which is also what its breakdown adds up to; each of these domains is fetched once and no other |
| SpfLaws.VisitedIsReachable | app/dns_utils.py:212-270 | a top-level call visits only domains reachable over include and redirect, and all of them unless the depth limit cut it, whatever cycles there are |
| SpfLaws.VerdictIsExact | app/dns_utils.py:388-402 | the count is never above the cost of all reachable records and equal to it whenever either is at most 12, so no verdict about 8 or 10 is changed by the depth limit |
| SpfLaws.SmallGraphIsNotCut | app/dns_utils.py:217-218 | the depth limit cannot take effect while at most 13 domains are reachable |
| SpfTree.TreeIsCountPlusSkipped | app/dns_utils.py:215-216 | from any visited set and depth, the walk without a visited set counts the reported number plus the cost below the calls that met a visited domain |
| SpfTree.TreeCountIsSeqCost | app/dns_utils.py:202-211 | the tree walk's count is the sum of the costing terms over the records it evaluates, repetitions included |
| SpfTree.VisitedIsExpanded | app/dns_utils.py:212-219 | from any visited set, the walk visits only domains that the tree walk evaluates at the same depth limit |
| SpfTree.CountAgainstTree | app/dns_utils.py:202-216 | the count never exceeds the tree walk's, and equals it if and only if no record that costs lookups is reached twice by the tree walk, which depends on the zone alone |
| SpfTree.CountOfTreeIsTreeCount | app/dns_utils.py:202-216 | in particular where the tree walk evaluates no record twice |
| SpfTree.DiamondIsUndercounted | app/dns_utils.py:202-211 | for every n, a zone in which an include named twice is counted once: n + 2 against 2n + 2 |
| SpfTree.CountIgnoresOrder | app/dns_utils.py:231-268 | reordering the terms of any records changes neither the reachable cost nor a count of at most 12 |
| SpfTree.StructureIssues | app/dns_utils.py:343-385 | an issue is listed if and only if the structure warrants it: several redirects with their number, a redirect ignored for its `all` or overriding mechanisms, a soft or plus policy, no policy |
| SpfTree.AddLimitIssue | app/dns_utils.py:393-402 | together with the limit warnings, exactly the warranted issues are listed |
| SpfTree.LookupSpf | app/dns_utils.py:326-405 | count and breakdown are those of the walk, the issues are exactly the warranted ones, and the limit warnings are given if and only if the cost of all reachable records is above 10 or from 8 to 10 |
| ZipCrypto.CrcTable | app/threattest.py:57-64 | entry i is the result of eight single-bit steps of polynomial 0xEDB88320 on i |
| ZipCrypto.TableStepIsEightSteps | app/threattest.py:78-82 | for every 32-bit register and byte the table step equals eight single-bit steps on their exclusive or |
| ZipVectors.TableAt128 | app/threattest.py:57-64 | a known answer: entry 128 of the table is 0xEDB88320 |
| ZipVectors.CrcOfOnes | app/threattest.py:99 | a known answer: the CRC-32 of the byte 0xFF is 0xFF000000 |
| ZipVectors.FreshKeys | app/threattest.py:74 | the keys before a password are 305419896, 591751049 and 878082192, as in section 6.1.5 of PKWARE APPNOTE.TXT |
| ZipVectors.ScheduleInFigures | app/threattest.py:78-82 | a known answer for one update of all three keys, each fed from the new value of the one before |
| ZipVectors.StreamIgnoresLowBits | app/threattest.py:84-86 | the byte of the key stream is taken from q(q+1), where q is the low half of the third key with its two low bits replaced by 2 |
| ZipVectors.ZeroShowsTheStream | app/threattest.py:88-93 | encrypting a zero under any keys gives the byte of the key stream |
| ZipVectors.FirstByteInFigures | app/threattest.py:84-93 | a known answer: under the keys before a password the zero byte becomes 0xAB |
| ZipCrypto.ZipKeys.constructor | app/threattest.py:73-76 | the keys start from the three constants and have absorbed the password |
| ZipCrypto.ZipKeys.UpdateKeys | app/threattest.py:78-82 | the table-driven update of the three keys is the bitwise one, with 32-bit wrap-around |
| ZipCrypto.ZipKeys.Encrypt | app/threattest.py:88-93 | output and final keys are those of the specified stream cipher |
| ZipCrypto.ZipKeys.Decrypt | app/threattest.py:118-121 | the decryption a reader performs, which updates on the recovered plaintext |
| ZipCrypto.DecryptInvertsEncrypt | app/threattest.py:88-93 | for all keys and data, decryption returns the plaintext and ends in the same key state |
| ZipCrypto.EncryptInvertsDecrypt | app/threattest.py:88-93 | and encryption inverts decryption, so the cipher is a bijection on byte strings of each length |
| ZipCrypto.KeysConcat | app/threattest.py:88-93 | absorbing a concatenation is absorbing its parts one after the other |
| ZipCrypto.EncryptConcat | app/threattest.py:88-93 | encrypting a concatenation is encrypting the parts with the key state carried over |
| ZipCrypto.MultiplierIsInjective | app/threattest.py:81 | multiplying by 134775813 modulo 2^32 loses nothing |
| ZipCrypto.UpdateIsInjective | app/threattest.py:78-82 | for a fixed byte, different key states have different successors |
| ZipCrypto.KeysNeverMerge | app/threattest.py:78-82 | different key states stay different over any plaintext |
| ZipNames.ListedAsWritten | app/threattest.py:106-107 | a name that is encoded as UTF-8 and decoded as code page 437 up to the first NUL is itself if and only if it is ASCII without NUL |
| ZipContainer.RecordSizes | app/threattest.py:108-115 | the three packed records have 30, 46 and 22 bytes |
| ZipVectors.ArchiveInBytes | app/threattest.py:101-116 | every byte of the archive: the records of sections 4.3.7, 4.3.12 and 4.3.16 of PKWARE APPNOTE.TXT in figures, the names, and random bytes, high byte of the checksum and data under the key stream of the password |
| ZipVectors.LimitsAreFieldLimits | app/threattest.py:108-115 | the archive is refused by its limits if and only if some field of a record does not fit its width |
| ZipVectors.Utf8CharEncodes | app/threattest.py:106 | the bytes written for a character are the shortest UTF-8 sequence that denotes its code point |
| ZipContainer.UnpackPack | app/threattest.py:108-115 | unpacking little-endian fields returns the values that fit into them |
| ZipContainer.SealIsOpened | app/threattest.py:101-104 | the decrypted check byte is the high byte of the CRC, and length and CRC match, so the sealed data is accepted and recovered, unless the password is empty |
| ZipContainer.ArchiveIsLocated | app/threattest.py:106-116 | a reader that goes from the end record over the central header to the local header finds CRC, both sizes and the payload under the name as it decodes it, and nothing under other names |
| ZipContainer.ArchiveLocator | app/threattest.py:111-116 | the 20 bytes before the end record look like a ZIP64 locator if and only if the last 20 bytes of the name do |
| ZipContainer.ArchiveIsReadBack | app/threattest.py:96-122 | within the field limits the data is read back, for every salt, if and only if the name is ASCII without NUL and does not end like a ZIP64 locator, and the password is not empty |
| ZipContainer.PackArchive | app/threattest.py:106-116 | the records are packed as specified if all fields fit, and packing fails otherwise |
| ZipContainer.SelfTest | app/threattest.py:118-122 | the archive is returned if and only if reading it back gives the data |
| ZipContainer.UmlautIsNotFound | app/threattest.py:106-121 | an example: with the name prüfung.txt the self-test fails for every password |
| ZipContainer.NulIsNotFound | app/threattest.py:106-121 | an example: with a NUL in the name it fails as well |
| ZipContainer.LocatorIsNotFound | app/threattest.py:106-121 | an example: it fails with a name of 20 characters that starts with the signature of a ZIP64 locator |
| ZipContainer.EmptyPasswordIsRefused | app/threattest.py:119-121 | with an empty password it fails for every name and data |
| ZipContainer.EncryptedZip | app/threattest.py:96-122 | the specified archive is returned if and only if all fields fit and name and password are of that kind, so exactly then the self-test passes |
| Dnsbl.ReverseIpTwice | app/blacklist.py:194-203 | reversing the octets of an IPv4 address twice gives the address back |
| DnsblLaws.ReversedOctets | app/blacklist.py:203 | the query names the octets of the address from the last to the first |
| DnsblLaws.QueryNameIffDotted | app/blacklist.py:197-203 | exactly four octets with dots between them have a query name |
| DnsblLaws.OctetsAreDecimals | app/blacklist.py:197-203 | an octet is the decimal of a number up to 255 without leading zeros |
| DnsblLaws.ListingCodeByOctets | app/blacklist.py:206-210 | an address is a listing code if and only if it lies in 127.0.0.0/8 and not in 127.255.255.0/24 |
| DnsblLaws.PublicZones | app/blacklist.py:213-215 | zones under spamhaus.org and the CBL are public, zones of the query service are not |
| DnsblLaws.TestPoint | app/blacklist.py:224-237 | a resolver passes if and only if it answers the entry for 127.0.0.2 with a listing code |
| DnsblLaws.PoolIsTrusted | app/blacklist.py:240-248 | the pool is, in order, all four resolvers or those of them that pass the test point |
| DnsblLaws.VerdictByAnswers | app/blacklist.py:302-323 | the verdict follows the first trusted resolver that denies or lists the name, failures and refusals being skipped; there is none if and only if all fail or refuse |
| DnsblLaws.TextIsCut | app/blacklist.py:324-331 | the text of a listing is the first 200 characters of the joined answers, or empty |
| DnsblLaws.HitsAreListings | app/blacklist.py:289-336 | a hit is reported exactly for a list whose zone lists the address, with the zone, name and severity of that list |
| Dnsbl.ListingCodesOf | app/blacklist.py:319-323 | codes are kept exactly if an answer has a listing code, so the fallback for refusals behind the query is never reached |
| Dnsbl.ResolveWithRetry | app/blacklist.py:251-278 | the loop over the resolvers, with its last error, returns what the first decisive resolver settles |
| Dnsbl.ResolveIsFirstDecisive | app/blacklist.py:251-278 | the result is that of the first resolver that answers decisively; None for a non-empty pool means a definitive negative, failure means that no resolver was decisive |
| Dnsbl.VerdictHasEvidence | app/blacklist.py:302-336 | clean rests on a negative and listed on listing codes from a resolver that, for public Spamhaus zones, passes the test point; without a decisive answer there is no verdict |
| DnsblCache.CachedCleanHasEvidence | app/blacklist.py:314-317 | an entry that says clean exists only with a definitive negative from a resolver of the zone's pool |
| DnsblCache.UnknownIsNotCached | app/blacklist.py:302-312 | a zone without a verdict, all resolvers failed, refused or blocked, is never in the cache |
| DnsblCache.Oldest | app/blacklist.py:188-190 | a tenth of the entries is chosen, and none of them is younger than one that stays |
| DnsblCache.Checker.CacheGet | app/blacklist.py:173-182 | an entry is returned if it is not older than an hour, and removed otherwise; nothing else changes |
| DnsblCache.Checker.CacheSet | app/blacklist.py:185-191 | the entry is stored, after the oldest tenth was dropped from a full cache, which never exceeds 10000 entries |
| DnsblCache.Checker.ProbeResolver | app/blacklist.py:224-237 | the verdict on a resolver is that of the test point, and one of less than thirty minutes is used as it is, any other noted anew |
| DnsblCache.Checker.ResolversFor | app/blacklist.py:240-248 | the pool is all resolvers, or for public Spamhaus zones those that pass the test point |
| DnsblCache.Checker.Query | app/blacklist.py:302-331 | the answer for a result that is not cached is the zone's verdict |
| DnsblCache.Checker.CheckZone | app/blacklist.py:294-336 | one turn of the loop finds the same listing with or without a cached entry; an entry of at most an hour is used without asking, otherwise the resolvers are asked and exactly a verdict is remembered |
| DnsblCache.Checker.CheckIp | app/blacklist.py:281-337 | after any history of calls, expiries and evictions the findings are those of an uncached check, and so are the whole hits if zones keep their labels |
| DnsblCache.Checker.CacheClear | app/blacklist.py:340-345 | both caches are empty afterwards and the number of dropped entries is returned |
| AlertJob.SeverityFor | app/blacklist.py:358-362 | severity is the greatest one among the hits, and 0 without hits |
| AlertJob.LatestIndex | app/blacklist_job.py:69-75 | the row with the greatest check time |
| AlertJob.BuildTargets | app/blacklist_job.py:160-170 | the targets are the MX and sender addresses, each once, with role MX where an address is both |
| AlertJob.Job.Decide | app/blacklist_job.py:194-221 | the event is the one of the trigger conditions over the stored rows, the new row not among them |
| AlertJob.Job.ScanTargets | app/blacklist_job.py:178-233 | the loop adds one row for each target, decided by the committed rows alone, and counts it |
| AlertJob.Job.CheckDomain | app/blacklist_job.py:158-236 | the rows of a scan are appended at its commit, and the counters count them: checked, listed and marked as alerted |
| AlertLaws.RunIsCooledDown | app/blacklist_job.py:223-233 | in any run, any two alerted rows of the same domain, address and event are more than 6 hours apart, however the clocks of different checks and scans are related, if the clock is not set back between the cooldown query of a check and the time of its alert |
| AlertLaws.HistoryIsOrdered | app/blacklist_job.py:202-207 | where scans commit at distinct, increasing times, the rows of one domain and address are stored in the order of their check times, so the query returns the last ones |
| AlertLaws.AlertsFollowTheTrace | app/blacklist_job.py:196-221 | after any such run, the event of a check is a function of the severity history of its address alone, and the cooldown decides whether it is sent |
| AlertLaws.AlertIffNotCooled | app/blacklist_job.py:84-90 | over the stored rows, a check alerts if and only if it calls for an event of which no row of its domain and address carries an alert from the last six hours |
| AlertLaws.RowKeepsCheck | app/blacklist_job.py:182-193 | the stored row names the check, its number of hits and their greatest severity, and an alert carries the event and the time of the check |
| AlertLaws.CountersAreCardinalities | app/blacklist_job.py:175-233 | the counters are the numbers of rows, of rows with hits and of rows with an alert |
| AlertLaws.ThresholdOfSetting | app/blacklist_job.py:176 | an unset threshold is 2, and any other one at least 1 |
| AlertLaws.ResolvedIsNeverSent | app/blacklist_job.py:220-221 | with a threshold of at least 2 no such run marks a row as resolved |
| AlertLaws.CleanToListedAlertsOnlyAtOne | app/blacklist_job.py:217-218 | a previously clean address that becomes listed alerts if and only if the threshold is 1 |
| AlertLaws.ListedToCleanResolvesOnlyAtOne | app/blacklist_job.py:220-221 | a previously listed address that is clean calls for the resolved event if and only if the threshold is 1 |
| AlertLaws.CleanThenCriticalIsSilent | app/blacklist_job.py:196-221 | an example: with threshold 2, a clean check and then one with severity 3 raise no alert |
| AlertLaws.AtOneEveryRiseAlerts | app/blacklist_job.py:214-221 | with threshold 1 the events are called for exactly by a rise to at least 2, and by a fall from there to clean |
| AlertLaws.LaterAlertsNeedAWarningFirst | app/blacklist_job.py:217-218 | with a larger threshold a later check alerts if and only if it raises severity 2 to 3 and the window was listed throughout |
| AlertLaws.AlertNeedsEnoughChecks | app/blacklist_job.py:196-211 | in any run with any threshold n, a check that calls for an alert is listed, and the n - 1 checks right before it exist and are listed if and only if the address has that many earlier checks |
| AlertLaws.FirstCheckIgnoresThreshold | app/blacklist_job.py:196-218 | in any run, the first check of an address alerts if and only if its severity is at least 2, whatever the threshold |
| AlertLaws.FirstCheckAlerts | app/blacklist_job.py:196-211 | an example: with threshold 2, the first check of an address is stored with an alert |
| TokenBucket.Limiter.constructor | app/rate_limit.py:21-25 | a new limiter has no buckets |
| TokenBucket.Limiter.Take | app/rate_limit.py:27-37 | the bucket of the key is refilled, limited to the capacity and charged exactly if the call is granted; other buckets are untouched |
| TokenBucket.GrantedAfterWaiting | app/rate_limit.py:31-37 | a bucket that holds too little grants a call if and only if the time since its last reading is at least the missing tokens divided by the refill rate |
| TokenBucket.BeyondCapacityIsDenied | app/rate_limit.py:32-37 | a call that costs more than the capacity is never granted |
| TokenBucket.KeysAreIndependent | app/rate_limit.py:29-37 | the bucket of a key after any run is determined by the calls with that key |
| TokenBucket.TokensAreTightestBudget | app/rate_limit.py:29-36 | the tokens before a call are the least of what capacity, refill and granted costs leave over all earlier starting points |
| TokenBucket.GrantedIffAllWindowsAllow | app/rate_limit.py:31-37 | a call is granted if and only if every window that ends with it stays within capacity and refill, with clock readings in any order |
| TokenBucket.WindowBound | app/rate_limit.py:27-37 | calls of one key with readings in [a, b] are granted at most capacity + refill * (b - a) |
| TokenBucket.RunGrantsByKey | app/rate_limit.py:29-37 | what a run grants to a key is what the key's own calls are granted |
| TokenBucket.RunWindowBound | app/rate_limit.py:27-37 | the bound for one key among calls with any keys |
| EnvFile.LinesOfFinalText | app/env_file.py:220-222 | splitting the written text gives the written lines, less one trailing empty line |
| EnvFile.AssignmentOfLine | app/env_file.py:193-206 | a written line is read as its key and its stripped value |
| EnvForms.SpacedAssignment | app/env_file.py:186-196 | whitespace before the key, around the equals sign and at the end does not matter |
| EnvForms.CommentAssignsNothing | app/env_file.py:187 | a comment, indented or not, assigns nothing |
| EnvForms.WordAssignsNothing | app/env_file.py:190-192 | nor does a line without an equals sign |
| EnvForms.QuotesAreDropped | app/env_file.py:164-166 | one pair of equal quotes around a value is dropped and nothing else |
| EnvFile.StoredAsItself | app/env_file.py:163-166 | a value is read back as itself if and only if it is stripped and not wrapped in matching quotes |
| EnvFile.ReadEnv | app/env_file.py:149-168 | the loop reads the last assignment of each key, over comments, blank lines and lines without an equals sign |
| EnvFile.RewriteLines | app/env_file.py:184-206 | the loop over the existing lines rewrites each of them and notes the keys seen and changed |
| EnvFile.AppendMissing | app/env_file.py:208-213 | the loop over the updates makes a line for each key not seen |
| EnvFile.WriteEnv | app/env_file.py:171-243 | text and changed keys are those of rewriting each line, then appending the missing keys |
| EnvForms.OneKeyIsWritten | app/env_file.py:185-222 | the exact text after writing one key to a file of any one line: replaced, or appended behind an empty line or a blank one |
| EnvForms.ReportedIfChanged | app/env_file.py:197-213 | a key is reported if and only if it is updated and was not assigned, or was assigned another value in some line |
| EnvLaws.ReadAfterWrite | app/env_file.py:185-222 | for values without a line break, reading after writing gives the old map overridden by the stored updates, for any file, duplicate keys included |
| EnvLaws.UpdatesAreReadBackIffGood | app/env_file.py:155-222 | all updates are read back as given if and only if their values are free of line breaks, stripped and not wrapped in matching quotes |
| EnvLaws.ReadValuesAreBreakFree | app/env_file.py:155-167 | a value that was read contains no line break, so it can be written again |
| EnvLaws.OtherLinesSurvive | app/env_file.py:185-218 | for values without a line break, every line that assigns no updated key survives as it is and in order, but for one empty line before appended keys or at the end |
| EnvLaws.SecondWriteReportsNothing | app/env_file.py:200-213 | a second identical write reports no changed key if and only if all values are free of line breaks, stripped and not wrapped in matching quotes |
| EnvLaws.SecondWriteOfLines | app/env_file.py:215-222 | for values without a line break, a second identical write keeps the text if and only if keys were appended or the file did not end in two empty lines |
| EnvLaws.SecondWriteDropsALine | app/env_file.py:215-222 | an example: writing A=1 twice to a file that ends in two empty lines changes the text twice |
| EnvBreaks.SecondWriteKeepsText | app/env_file.py:185-222 | where no value ends in a line break, as after the stripping at app/routers/admin.py:500, a second identical write keeps the text if and only if no value contains a line break, and keys were appended or the file did not end in two empty lines |
| EnvBreaks.SecondWriteAddsLines | app/env_file.py:199-203 | if some value contains a line break and none ends in one, the second identical write, and so each further one, leaves more lines that are not empty than the one before |
| EnvBreaks.StoredIsReadIffWritable | app/env_file.py:155-222 | for stripped values, the updates are read back as they are stored if and only if none contains a line break |
| EnvBreaks.BrokenValueGrows | app/env_file.py:185-222 | an example for any key: a value of two lines puts its second line into the file once more with the second write |
| Ingest.FindReport | app/ingest.py:124-130 | a stored report with the same sender and id is found exactly if there is one |
| Ingest.FindDomain | app/ingest.py:28-38 | a domain row that the context may use is found exactly if there is one |
| Ingest.OnlyDomainIsFound | app/ingest.py:146-151 | where the count is not zero, the domain is found |
| Ingest.Session.EnsureDomain | app/ingest.py:41-55 | a tenant's domain is found, or created if that is allowed and the name is not empty |
| Ingest.Session.Persist | app/ingest.py:58-109 | one report and one row for each record are added, with the tenant of the domain |
| Ingest.Session.IngestParsed | app/ingest.py:112-182 | tables, log row and result are those of the specified ingest, in each of its five outcomes |
| Ingest.Session.IngestPayloadRun | app/ingest.py:185-215 | a payload is ingested report by report, and logged as one error if it cannot be parsed |
| IngestLaws.IngestKeepsConsistency | app/ingest.py:124-166 | one ingest keeps keys unique, tenants' domains distinct, and each report and record with the tenant of its domain |
| IngestLaws.RunKeepsConsistency | app/ingest.py:112-215 | so does every run of payloads with any contexts and parse failures |
| IngestLaws.StoredWhereAllowed | app/ingest.py:124-163 | a report is a duplicate exactly if its key is stored, and else stored exactly if it can be placed: in the tenant's own domain, registered or created, in a domain of one of the reseller's tenants, or in the only domain of that name |
| IngestLaws.RecordsAreStored | app/ingest.py:78-109 | the records of an imported report are added in order with their addresses and counts under its id and tenant, other reports add nothing, and the log row names the tenant |
| IngestLaws.VolumeIsImported | app/ingest.py:78-109 | a payload adds to the database exactly the mails that its imported reports count |
| IngestLaws.UnparsedIsLogged | app/ingest.py:195-200 | a payload that cannot be parsed changes nothing but the log |
| IngestLaws.OneLogRowPerResult | app/ingest.py:133-167 | every result of a payload has exactly one log row, in order, with its status and report |
| IngestLaws.RunIsLogged | app/ingest.py:185-215 | so has every result of a run of payloads, parse errors included, and nothing else is logged |
| IngestLaws.AllAreSettled | app/ingest.py:124-166 | after a payload each of its reports is stored, or was ignored and still cannot be placed |
| IngestLaws.NothingNewIsStored | app/ingest.py:124-163 | reports that are stored or cannot be placed leave all tables as they are |
| IngestLaws.StoredIfBrought | app/ingest.py:124-166 | a key is stored after a payload exactly if it was stored before or the payload holds a report with it that can be placed in the domain table from before |
| IngestLaws.ReplayStoresNothing | app/ingest.py:185-215 | a replay in the same context stores nothing; ok and dup come back as dup, and ignored as dup exactly if the payload holds a report with the same key that can be placed in the domain table from before the first ingest |
| IngestLaws.IgnoredCanReplayAsDuplicate | app/ingest.py:124-163 | an ignored report followed by a placeable one with the same key comes back as dup |
| Tally.SumWhereBump | app/stats.py:379 | adding to a dictionary entry changes the sum over any set of keys by what was added, if its key is in the set |
| Tally.SortOrders | app/stats.py:338 | sorting orders by falling key and keeps every element |
| Tally.SortIsStable | app/stats.py:338 | sorting leaves elements with equal keys in their order |
| Stats.DomainTotals | app/stats.py:50-62 | the five totals are the volumes of all, aligned, not aligned, quarantined and rejected rows |
| Stats.SenderBreakdown | app/stats.py:327-349 | the list is the sorted buckets, cut at the limit with the others summed up |
| Stats.SenderDailyStack | app/stats.py:369-400 | days and series are those of the specified stack, rows without a day skipped |
| Stats.OtherSeries | app/stats.py:390-396 | the series of the others holds what is not under a shown sender, and is kept if any day has some |
| Stats.SankeyData | app/stats.py:420-447 | the links are the two legs of flows of the rows with a positive count |
| StatsLaws.TotalsAddUp | app/stats.py:50-62 | passed and failed make up the total, and where no count is negative quarantined and rejected stay within it |
| StatsLaws.TotalsOfOneRow | app/stats.py:28-62 | what one row adds: it has passed exactly if DKIM or SPF passed, and is quarantined or rejected by its disposition |
| StatsLaws.TotalsOfConcat | app/stats.py:50-62 | totals of two lists of rows are added up, so single rows determine them |
| StatsLaws.BreakdownAddsUp | app/stats.py:327-349 | in every row, the others included, passed and failed make up the total; the columns sum to the volumes of all rows; the shown senders are in falling order |
| StatsLaws.ShownSendersAreTheirVolumes | app/stats.py:327-347 | every shown sender is shown once, with the total, passed and failed volumes of its own rows |
| StatsLaws.RestIsNamed | app/stats.py:339-349 | there is a bucket of the others, under that name, exactly if there are more senders than the limit |
| StatsLaws.TopAreLargest | app/stats.py:430 | no sender that is left out has more volume than one that is shown by name |
| StatsLaws.SeriesAreVolumes | app/stats.py:385-388 | every value of a named series is the volume of its sender on its day |
| StatsLaws.OthersAreNamed | app/stats.py:389-400 | the last series carries the name and the volumes of the others exactly if they have a positive volume on some day |
| StatsLaws.DaysIncrease | app/stats.py:383 | the days are listed once, in increasing order |
| StatsLaws.StackAddsUpPerDay | app/stats.py:383-400 | each day's series add up to the volume of that day if and only if the others are shown or have no volume on it, which is always so without negative counts |
| StatsLaws.StackAddsUp | app/stats.py:369-400 | the whole stack shows the volume of all dated rows if and only if the others are shown or have no volume in total, which is always so without negative counts |
| StatsLaws.NegativeCountIsNotStacked | app/stats.py:390-400 | an example: with a count of minus one among the others the stack does not show the volume of its rows |
| StatsLaws.NodeFlows | app/stats.py:432-446 | inflow and outflow of any node, in terms of the rows |
| StatsLaws.SankeyOfOneRow | app/stats.py:432-446 | one row is two links: from its sender, or the others, to its alignment, and from there to its disposition |
| StatsLaws.DispositionNames | app/stats.py:439 | no, empty and none are Delivered, quarantine and reject have their own names, anything else its title |
| StatsLaws.AlignmentNodesBalance | app/stats.py:432-446 | inflow equals outflow at an alignment node if and only if no disposition is titled like the node |
| StatsLaws.TitledDispositionUnbalances | app/stats.py:432-446 | an example: one row whose disposition is titled Aligned makes inflow and outflow of that node differ |
| StatsLaws.SankeyAddsUp | app/stats.py:432-446 | each leg carries the volume of the rows with a positive count, which is the volume of all rows if and only if no count is negative |
| StatsLaws.AllViewsAgree | app/stats.py:314-447 | for dated rows the breakdown shows the total, and stack and both legs show it too if and only if no count is negative |
| VerifyFlow.FindRow | app/routers/threattest.py:250-256 | a request is found exactly if there is one with the token |
| VerifyFlow.Tool.CheckForm | app/routers/threattest.py:150-175 | a form has no problem if and only if mail is configured, the recipient has an @ and a dot behind the last one, a case is chosen, and the spoof and impersonation cases come with their addressee or name |
| VerifyFlow.Tool.RequestCode | app/routers/threattest.py:147-243 | a row is added exactly if form, daily limit and token allow it, also if the code cannot be mailed |
| VerifyFlow.Tool.Verify | app/routers/threattest.py:246-289 | row, queue and page are those of the specified check, in each of its seven outcomes |
| VerifyLaws.CodeDenotesNumber | app/routers/threattest.py:194 | a code has six digits that denote its number, so all numbers below a million have different codes |
| VerifyForms.CodeIsGoodForHalfAnHour | app/routers/threattest.py:194-270 | a code entry for a new request is right if and only if it is made within thirty minutes and is the mailed code |
| VerifyForms.ReleasedByItsCode | app/routers/threattest.py:193-281 | from any request on, whatever else happens, its batch is released if and only if its six digits are among the first five readable entries of the next thirty minutes |
| VerifyForms.AddressesAreNormalised | app/routers/threattest.py:157-159 | addresses typed with any capitals and whitespace are kept in small letters without it |
| VerifyForms.NameKeepsCapitals | app/routers/threattest.py:160 | a name is kept without the whitespace around it, an empty one as none |
| VerifyForms.BatchIsOfRequest | app/routers/threattest.py:278-286 | a right entry queues one batch with recipient, cases, addresses and name of the request, under its time and the first four characters of the token |
| VerifyForms.CasesNeedTheirIds | app/routers/threattest.py:295-299 | a case is part of a batch if and only if it is chosen, not skipped, and made from the address or name of its own case |
| VerifyForms.DayLimitIsExact | app/routers/threattest.py:177-191 | a request is refused for the daily limit if and only if its form is in order and its address, which is not exempt, made as many requests as allowed since midnight |
| VerifyForms.ProblemTellsForm | app/routers/threattest.py:150-175 | each complaint about a form is shown if and only if it is the first that applies |
| VerifyForms.PageTellsOutcome | app/routers/threattest.py:250-289 | each page of a code entry is shown exactly for its outcome, with the number of entries that are left |
| VerifyLaws.RowFollowsItsAttempts | app/routers/threattest.py:258-281 | whatever other calls there are, a request is decided by its own code entries in time: the right code among the first five releases it, at the time of that entry |
| VerifyLaws.SentIffCodeAmongFirstFive | app/routers/threattest.py:258-281 | it is sent if and only if one of the first five entries in time is right, no later than expiry; wrong entries never exceed five, and verified and sent are set together |
| VerifyLaws.RunKeepsAccounts | app/routers/threattest.py:278-286 | over every run the queue holds the batch of each sent request once and nothing else |
| VerifyLaws.PageMatchesBatch | app/routers/threattest.py:292-304 | whenever the confirmation page is shown, a queued batch has the same cases, recipient and run id |
| VerifyLaws.ChosenIdsAreStored | app/routers/threattest.py:283 | the chosen case ids come back from the stored text if and only if none is empty or contains a comma |
| VerifyLaws.CodeCanBeEntered | app/routers/threattest.py:269-270 | the mailed code survives stripping and can be compared |
| VerifyLaws.DayLimitHolds | app/routers/threattest.py:177-191 | an address that is not exempt never gets more than the allowed number of requests on one day |
| Score.HalfEven | app/mt_scorer.py:804 | the nearest integer, and of two nearest ones the even one |
| Score.AddUp | app/mt_scorer.py:801-809 | the sums skip the skipped checks, and the total is their rounded and limited quotient |
| Score.ScoreEmail | app/mt_scorer.py:333-809 | the checks of a mail are added up to a total between 0 and 10 |
| Score.TotalIsInRange | app/mt_scorer.py:801-809 | the total is between 0 and 10, and limiting it to 10 changes nothing |
| ScoreForms.MailIsWrittenOut | app/mt_scorer.py:358-793 | weight and points of every mail as sums over its findings, in figures |
| ScoreForms.SpamCurve | app/mt_scorer.py:575-582 | the share for a spam score as four straight pieces; the bounds 0.4 and 0.1 never take effect |
| ScoreForms.PercentByLengths | app/mt_scorer.py:669-670 | there is enough text if and only if 200 times its length is at least 19 times that of the HTML |
| ScoreForms.FullMarksIffFlawless | app/mt_scorer.py:358-803 | a mail earns everything that applies to it if and only if it is flawless |
| ScoreForms.FlawlessMailScoresTen | app/mt_scorer.py:801-809 | and then its total is ten |
| ScoreForms.RoundedToHundredths | app/mt_scorer.py:804 | a total is the nearest number of whole hundredths |
| ScoreForms.MatchingNames | app/mt_scorer.py:290-297 | a reverse name matches, in any case, the sender domain and every name below it |
| ScoreForms.MatchingHelo | app/mt_scorer.py:298-305 | for names in small letters, outside the sender domain it matches if and only if it ends like the last two labels of the HELO name |
| ScoreForms.StatusesFit | app/mt_scorer.py:358-793 | the status shown for each check fits its points, and exactly the skipped ones have no weight |
| ScoreLaws.RaisingNeverLowers | app/mt_scorer.py:801-809 | raising the score of any check of any list never lowers the rounded total |
| ScoreLaws.FullCheckNeverLowers | app/mt_scorer.py:801-809 | nor does a further check with the full score, anywhere in the list |
| ScoreLaws.SkippedCheckIsIgnored | app/mt_scorer.py:799-802 | skipped checks change nothing |
| ScoreLaws.SpamShareFalls | app/mt_scorer.py:573-581 | a higher spam score never gets a larger share; shares lie between 0 and 1, with 1 below zero and 0 from 6 on |
| ScoreLaws.MailIsScored | app/mt_scorer.py:333-809 | for every mail the checks that apply weigh at least 4.7, so the total is always proportional and between 0 and 10 |
| ScoreLaws.LowerSpamScoreNeverLowers | app/mt_scorer.py:573-588 | of two mails that differ in the spam score only, the one with the lower spam score does not score less |
| ScoreLaws.GainingReverseNameNeverLowers | app/mt_scorer.py:486-524 | a sender that gains a reverse name does not score less, even if it is then judged by one check more |

## Left out

- Text.Lower: lower-cases ASCII letters only, where Python lower-cases all of Unicode; domain names and keywords are ASCII.
- SpfWalk.CountTerms: the token loop of the recursive call is a method of its own, as are its turn (`CountTerm`) and the choice of its branch (`ReadTerm`); the set shared through the recursion is the field of an object that all calls receive.
- SpfWalk.Walk: `get_txt_records` is a fixed map from lower-cased domain to TXT records; timeouts and answers that change during a walk are not modelled.
- SpfTree.LookupSpf: the texts of the warnings are constructors of a datatype; the warning for an error of the top-level call is shown to be unreachable.
- ZipContainer.ReadZip: a reader after sections 4.3.7, 4.3.12 and 4.3.16 of PKWARE APPNOTE.TXT stands in for Python's `zipfile` on a POSIX system; it refuses a ZIP64 locator instead of following it, and leaves out archive comments, extra fields and repeated names. The upper half of code page 437 is a parameter, so the results hold for every such table.
- ZipContainer.EncryptedZip: the eleven random bytes are a parameter, `zlib.crc32` is the bitwise definition, fields that do not fit make `struct.pack` fail, and the exceptions of the self-test are error results.
- ZipCrypto.ZipKeys.Decrypt: the repository has no decryption of its own; this is the inverse that the self-test relies on.
- `plain_zip` and `nested_zip`: DEFLATE comes from a library, so only the iteration count would remain.
- DnsblCache.Checker.CheckIp: clock readings are arbitrary, so every expiry and eviction is covered; entries of equal age are evicted in any order; sleeps and log lines are left out, and the choice of active lists is a parameter. That labels agree with an uncached check too is proved for runs in which a zone always has the same name and severity.
- Dnsbl.ReverseIp: an IPv4 address is four octets in canonical decimal; other spellings that `ipaddress` accepts for IPv6 are skipped like all of IPv6.
- AlertLaws.HistoryIsOrdered: where two rows of one address have the same check time, the database may return either as the latest, so the laws about severity histories assume distinct, increasing commit times.
- AlertJob.Job.CheckDomain: one scan at a time; the results of the DNS and of the MX lookup are parameters, `checked_at` is the clock of the commit, and mail delivery and database failures are left out.
- TokenBucket.Limiter.Take: tokens and times are real numbers instead of floats; the order of calls is the order in which they hold the lock.
- EnvLaws.OtherLinesSurvive: stated for values without a line break; the further lines of another value become lines of their own, which `EnvBreaks` counts but does not place.
- EnvLaws.ReadAfterWrite: stated for values without a line break; `EnvBreaks.StoredIsReadIffWritable` shows that it fails for stripped values with one.
- EnvBreaks.SecondWriteKeepsText: values that end in a line break are left out; none is left after the stripping in `app/routers/admin.py`.
- EnvFile.WriteEnv: the file is its text after the translation of line ends, a missing file is the empty text, and the temporary file and its renaming are left out.
- Ingest.Session.IngestParsed: the XML parser, reverse lookups, the rows for authentication results, the spike alert and the webhook are left out; a query without an order returns the first row of the table.
- Ingest.Session.Persist: a report keeps the sender and id it is recognised by and a record its address and count; the other columns, which are copied unread, and the rows for authentication results are left out.
- Stats.SenderDailyStack: the nested dictionary of days and senders is one dictionary with pairs as keys, and a day is its number; the rows of each view are what its query returns, and the SQL grouping before it, the pass rates and the colours are left out.
- Stats.SankeyData: the library function that title-cases a disposition is a parameter.
- VerifyFlow.Tool.Verify: calls are atomic; the time in a run id is kept as a time instead of a formatted text, and pages are constructors instead of HTML.
- VerifyFlow.Tool.RequestCode: the token, the number of the code, the clock readings and the outcome of mailing the code are parameters; a token that is already taken violates the unique column and is an error.
- The sending of a batch over SMTP, the case list of `make_cases` (a parameter) and the read-only verify page are left out.
- Score.ScoreEmail: what the parsers and the DNS find in a mail are the fields of a record; scores are real numbers with rounding half to even, and a spam score that is no number is left out.
- SMTP, IMAP, HTTP, templates, passwords, sessions and administration pages.
