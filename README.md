# reputationchecker in Dafny

A model of the decision logic of *reputationchecker*, a command-line
tool that asks a list of DNS blocklists (DNSBLs) whether an IPv4 address
or a domain name is listed. The model covers these parts of the tool:

- **Target validation.** The address and domain recognisers and
  `validate_target`, from `utils/validators.py` and `utils/ip.py`.
- **Lookup names.** `reverse_ip` and the query name. This is the
  reversed-octet name of section 2.1 of RFC 5782 for an address, and the
  name itself, as in section 3 of RFC 5782, for a domain.
- **Response classifiers.** The base handler's `check` and
  `create_result`, and the eight table-driven handlers: Spamhaus,
  Barracuda, SpamCop, DroneBL, Blocklist.de, SpamRATS, Hostkarma and
  Mailspike. Each turns the answer to the DNS query into the pair
  `(is_listed, details)`, or lets the lookup error escape.
- **CINSscore.** A handler that checks the target against a downloaded
  list of bad addresses. The list is kept in a cache file for a day.
- **The registry.** `DNSBL_SERVICES`, the 17 services in their fixed
  order.
- **Aggregation.** What `reputationchecker.py` builds on top of all
  this:
  - `check_dns_list`;
  - the category-filtered loop of `main`;
  - `group_results_by_category`;
  - the status colour, details text and summary counts of
    `display_results`.

The world outside is passed in as parameters:

- The DNS resolver is a function from a query name to an `Outcome`: a
  first answer (with the rest), NXDOMAIN, or any other failure.
- The CINSscore cache file is a record of fields: present, modification
  time, text, readable.
- The clock is an integer number of seconds.
- The HTTP download is its outcome: the fetched text, or nothing.

A Python exception that escapes a handler is the `Raised` result. An
exception that escapes `check_dns_list` is the `Err` result.

The stateful parts are imperative Dafny:

- The CINSscore handler is a class whose `cache` field its `DownloadList`
  and `Check` methods update.
- `check_dns_list` and the loop of `main` are methods that change that
  handler.
- `group_results_by_category` is a loop that fills a map.

Each method is proved against a function of its inputs and old state. The
properties of that function are proved as lemmas.

Files: `pystr.dfy` (the Python string operations used: `split`, `join`,
`find`, `in`, `strip`, `rstrip`, `capitalize`), `models.dfy`,
`validators.dfy`, `ip.dfy`, `base.dfy`, one file per handler,
`cinsscore.dfy`, `config.dfy`, `reputationchecker.dfy`, `grouping.dfy`
and `display.dfy`.

Some behaviours of the code are easy to miss. The model keeps each of
them as the code has it:

- A domain label needs 2 to 63 characters. The pattern asks for a first
  and a last character around up to 61 middle ones.
- Five handlers let a lookup error escape: Spamhaus, Barracuda, SpamCop,
  Blocklist.de and Mailspike. `main` then drops that service from the
  results. It does not report an error entry for it.
- The generic path reports a resolver failure as "Error: <message>".
- CINSscore reports "Error: Could not download CINSscore list" when the
  download fails, and "Listed in CINSscore bad guys list" for a hit.

## Model

| member | source | states |
|---|---|---|
| PyStr.IntStrip | utils/validators.py:16 | what `int()` strips: the result neither starts nor ends with the whitespace `int()` skips, which is `isspace()` without U+001C to U+001F |
| Validators.PyInt | utils/validators.py:16 | `int(part)`: the whitespace `int()` skips is ignored at both ends; then one optional sign and ASCII digits with single underscores between them, at most 4300 digits (`sys.get_int_max_str_digits()` by default; leading zeros count, underscores do not); anything else is the ValueError |
| Validators.PyIntOfDigits | utils/validators.py:16 | `int()` reads a non-empty run of ASCII digits as its decimal value when it has at most 4300 digits, and raises ValueError when it has more |
| Validators.PyIntOfSigned | utils/validators.py:16 | `int()` applies a leading `+` or `-` to the value of the digits after it; the sign does not count towards the 4300-digit limit, beyond which it raises |
| Validators.PyIntNeedsDigit | utils/validators.py:16 | whatever `int()` accepts contains an ASCII digit |
| Validators.StripDropsSeparator | utils/validators.py:16 | `strip()` removes a leading U+001C, since `isspace()` counts it as whitespace |
| Validators.IntKeepsSeparator | utils/validators.py:16 | `int()` does not skip a leading U+001C, so "\x1c1" is a ValueError |
| Validators.PyIntIgnoresBlanks | utils/validators.py:16 | a blank before or after a part does not change what `int()` reads |
| Validators.IsValidIp | utils/validators.py:4-18 | `is_valid_ip`: exactly four '.'-separated parts, each read by `int()` (with its 4300-digit limit) into 0..255; a part `int()` refuses makes it false, not an error |
| Validators.SplitQuad | utils/validators.py:15 | splitting a dotted quad of dot-free parts on '.' gives back exactly those four parts |
| Validators.QuadValidity | utils/validators.py:15-16 | a dotted quad is accepted iff `int()` reads each of its four parts, without exceeding the digit limit, as an integer in 0..255 |
| Validators.FourPartsAreQuad | utils/validators.py:15-16 | every string with four dot-separated parts is the dotted quad of those parts; with QuadValidity this characterises `is_valid_ip` |
| Validators.DigitsOctet | utils/validators.py:16 | one to three digits are an accepted part iff their value is at most 255 |
| Validators.DigitOctet | utils/validators.py:16 | a single digit is an accepted part |
| Validators.SignedDigitOctet | utils/validators.py:16 | a signed digit is an accepted part iff the sign is `+` or the digit is 0 |
| Validators.AcceptsPlainQuad | utils/validators.py:15-16 | "1.2.3.4" is accepted |
| Validators.AcceptsLeadingZeros | utils/validators.py:16 | "001.2.3.4" is accepted, because `int()` ignores leading zeros |
| Validators.RejectsOctetAbove255 | utils/validators.py:16 | "1.2.3.256" is rejected |
| Validators.RejectsNonNumericOctet | utils/validators.py:14-18 | "1.2.3.a" and "1.2.3." are rejected: the ValueError becomes false |
| Validators.RejectsSeparatorPaddedOctet | utils/validators.py:14-18 | "\x1c1.2.3.4" is rejected, because `int()` refuses its first part |
| Validators.RejectsOverlongOctet | utils/validators.py:14-18 | a quad whose first part has more than 4300 digits, leading zeros included, is rejected: `int()` raises ValueError on it |
| Validators.SignedParts | utils/validators.py:16 | "+1.2.3.-0" is accepted and "1.2.3.-4" is rejected |
| Validators.AcceptsPaddedParts | utils/validators.py:16 | " 1.2.3.4 " is accepted, because `int()` strips blanks |
| Validators.OctetHasDigit | utils/validators.py:16 | every accepted part contains an ASCII digit |
| Validators.IsValidDomain | utils/validators.py:20-34 | `is_valid_domain`: false for the empty string; otherwise the regex matches the whole string, or all of it but one final newline |
| Validators.PatternShape | utils/validators.py:33-34 | a pattern match contains a '.' and ends in two letters |
| Validators.DomainShape | utils/validators.py:30-34 | an accepted domain contains a '.' and ends in a letter, or in a letter and the one newline that `$` tolerates |
| Validators.PatternOfPieces | utils/validators.py:33-34 | on dot-free pieces the regex matches iff there are one or more 2-to-63-character labels followed by two or more letters |
| Validators.AcceptsDomains | utils/validators.py:33-34 | "example.com" and "mail.example.com" are accepted |
| Validators.AcceptsTrailingNewline | utils/validators.py:33-34 | "example.com\n" is accepted, because `$` matches before a final newline |
| Validators.RejectsShortLabel | utils/validators.py:33 | "a.com" is rejected: a label needs at least two characters |
| Validators.RejectsMalformedDomains | utils/validators.py:30-34 | "", "com" and "-ab.com" are rejected |
| Validators.RejectsDottedQuadAsDomain | utils/validators.py:33 | "12.34.56.78" is not a domain |
| Validators.ValidateTarget | utils/validators.py:36-51 | the flag is true iff the address or the domain check holds; the message is "" on success and the fixed text on failure |
| IpUtils.IsValidIp | utils/ip.py:5-11 | `ipaddress.ip_address` on IPv4: exactly four '.'-separated parts, each a strict octet |
| IpUtils.QuadValidity | utils/ip.py:5-11 | under `ipaddress` a dotted quad is an address iff each part is 1 to 3 digits, without a leading zero, and at most 255 |
| IpUtils.StrictIsLenient | utils/ip.py:5-11 | every address `ipaddress` accepts is also accepted by the `int()`-based check |
| IpUtils.LeadingZeroSeparatesChecks | utils/ip.py:5-11 | "01.2.3.4" is refused by `ipaddress` but accepted by the `int()`-based check |
| IpUtils.AcceptsPlainQuad | utils/ip.py:5-11 | "1.2.3.4" is an address |
| IpUtils.AddressEndsInDigit | utils/ip.py:5-11 | an address ends in a digit |
| IpUtils.AddressIsNotDomain | utils/ip.py:17-22 | no address is also a domain, so the order of the two checks does not matter |
| IpUtils.ReverseIp | utils/ip.py:13-15 | `reverse_ip`: split on '.', reverse the components, join them with '.' |
| IpUtils.ReverseIpComponents | utils/ip.py:13-15 | the components of the reversal are the input's components in reverse order |
| IpUtils.ReverseIpInvolution | utils/ip.py:13-15 | reversing twice gives back any string |
| IpUtils.ReverseIpLength | utils/ip.py:13-15 | reversal keeps the length and the number of components |
| IpUtils.ReverseIpNoDot | utils/ip.py:13-15 | a string without '.' is its own reversal |
| IpUtils.ReverseQuad | utils/ip.py:13-15 | the reversal of a.b.c.d is d.c.b.a |
| IpUtils.ReverseIpExample | utils/ip.py:13-15 | `reverse_ip("1.2.3.4") == "4.3.2.1"` |
| IpUtils.ReverseIpKeepsAddress | utils/ip.py:5-15 | the reversal of an address is again an address |
| IpUtils.ValidateTarget | utils/ip.py:17-32 | the flag is true iff the address or the domain check holds; an address gives `(True, "")`; failure gives the fixed message |
| DnsblBase.LookupName | handlers/base.py:89-101 | the name is the target part, a '.', then the zone; the target part is the reversed address for an address and the target itself otherwise |
| DnsblBase.LookupNameSeparatesZones | handlers/base.py:89-101 | the same target under two different zones gives two different names |
| DnsblBase.GetARecord | handlers/base.py:103-119 | only the first answer counts; NXDOMAIN is "no record"; any other failure raises "DNS lookup error: " followed by the message |
| DnsblBase.Check | handlers/base.py:23-45 | a lookup error escapes; no address gives (False, "Not listed"); a rate-limit address gives its message, unlisted; any other address is listed, with its description or "Listed" tagged with "(Return IP: …)" |
| DnsblBase.TableCheck | handlers/base.py:23-45 | the check without a rate-limit test equals the base check with an empty rate-limit table |
| DnsblBase.RateLimitWins | handlers/base.py:39-43 | an address in both tables is reported as rate-limited, not listed |
| DnsblBase.ExtractReturnIp | handlers/base.py:58-60 | an address is read back iff the details contain "(Return IP: "; it never ends in ')' |
| DnsblBase.Tagged | handlers/base.py:43 | the details of a listing: the description, then " (Return IP: ", the address and ")" |
| DnsblBase.TaggedFirstMarker | handlers/base.py:43 | in tagged details with a colon-free description, the first "(Return IP: " is the one after the description |
| DnsblBase.TaggedRoundTrip | handlers/base.py:43-60 | `create_result` reads back exactly the address that `check` tagged the details with |
| DnsblBase.ListedRoundTrip | handlers/base.py:42-60 | every listing of the base check carries its return address back to `create_result` |
| DnsblBase.UnknownCodeHasNoReturnIp | handlers/spamrats.py:48 | unknown-code details contain neither "(Return IP: " nor "Return IP:" |
| DnsblBase.FirstColor | handlers/base.py:63-67 | the colour of the first `COLOR_LOGIC` list that holds the address, or none when no list holds it |
| DnsblBase.FirstColorOfUnique | handlers/base.py:63-67 | when only one list holds the address, its colour is the one found |
| DnsblBase.CreateResult | handlers/base.py:47-75 | name, description and category come from the service and details are kept; the status is the capitalised first matching colour, else "Listed"/"Not Listed" |
| DnsblBase.CreateResultWithoutColors | handlers/base.py:62-63 | with an empty colour table the status depends on `is_listed` alone |
| Spamhaus.Check | handlers/spamhaus.py:7-44 | agrees with the base check over its return-code and rate-limit tables on every outcome |
| Spamhaus.CheckListsEveryOtherAnswer | handlers/spamhaus.py:32-44 | only a lookup error escapes; every address other than the rate-limit one is listed |
| Spamhaus.RateLimited | handlers/spamhaus.py:38-39 | 127.255.255.254 gives (False, "Query blocked or rate-limited") |
| Spamhaus.SblListing | handlers/spamhaus.py:41-42 | 127.0.0.2 gives (True, "SBL (General spam source) (Return IP: 127.0.0.2)") |
| Spamhaus.UnknownCodeListing | handlers/spamhaus.py:44 | 127.0.0.8 gives (True, "Listed (Return IP: 127.0.0.8)") |
| Spamhaus.DescriptionsLackColon | handlers/spamhaus.py:7-16 | no description contains a colon |
| Spamhaus.CheckRoundTrip | handlers/spamhaus.py:41-44 | a Spamhaus listing carries its address back to `create_result` |
| Barracuda.Check | handlers/barracuda.py:21-30 | a lookup error escapes; no address is "Not listed"; every address is listed, tagged with its description or "Listed" |
| Barracuda.GeneralSpamListing | handlers/barracuda.py:27-28 | 127.0.0.2 gives (True, "General spam source (Return IP: 127.0.0.2)") |
| Barracuda.OtherAddressListing | handlers/barracuda.py:30 | 127.0.0.3 gives (True, "Listed (Return IP: 127.0.0.3)") |
| Barracuda.DescriptionsLackColon | handlers/barracuda.py:7-9 | no description contains a colon |
| Barracuda.CheckRoundTrip | handlers/barracuda.py:27-30 | a listing carries its address back to `create_result` |
| SpamCop.Check | handlers/spamcop.py:21-30 | a lookup error escapes; no address is "Not listed"; every address is listed, tagged with its description or "Listed" |
| SpamCop.GeneralSpamListing | handlers/spamcop.py:27-28 | 127.0.0.2 gives (True, "General spam source (Return IP: 127.0.0.2)") |
| SpamCop.OtherAddressListing | handlers/spamcop.py:30 | 127.0.0.3 gives (True, "Listed (Return IP: 127.0.0.3)") |
| SpamCop.DescriptionsLackColon | handlers/spamcop.py:7-9 | no description contains a colon |
| SpamCop.CheckRoundTrip | handlers/spamcop.py:27-30 | a listing carries its address back to `create_result` |
| DroneBL.Code | handlers/dronebl.py:44 | the code is a dot-free suffix of the return address |
| DroneBL.CodeIsLastComponent | handlers/dronebl.py:44 | the code of `prefix.code` is `code`, whatever the prefix |
| DroneBL.CodeOfDotless | handlers/dronebl.py:44 | a dot-free address is its own code |
| DroneBL.Check | handlers/dronebl.py:37-51 | never raises; a lookup error gives (False, "Error: …"); no address gives (False, "Not Listed"); every address is listed with threat, code and address |
| DroneBL.Threat | handlers/dronebl.py:46 | the threat type of a code, with "Unknown Threat Type" for a code the table does not have |
| DroneBL.Details | handlers/dronebl.py:48 | the details: the threat type, then the code and the return address in parentheses |
| DroneBL.SameLastComponentSameThreat | handlers/dronebl.py:44-48 | two addresses that end in the same component get the same threat type |
| DroneBL.HttpProxyListing | handlers/dronebl.py:44-48 | 127.0.0.9 gives (True, "HTTP Proxy (Code: 9, Return IP: 127.0.0.9)") |
| DroneBL.UnknownCodes | handlers/dronebl.py:46 | codes 1, 4 and 200 get "Unknown Threat Type" |
| DroneBL.Code255IsNotTheDefault | handlers/dronebl.py:24-46 | code 255 gets "Unknown", which differs from the default text |
| BlocklistDE.Check | handlers/blocklist_de.py:41-50 | a lookup error escapes; no address is "Not listed"; every address is listed, tagged with its attack kind or "Listed" |
| BlocklistDE.SshListing | handlers/blocklist_de.py:47-48 | 127.0.0.14 gives (True, "ssh (Return IP: 127.0.0.14)") |
| BlocklistDE.UnknownCodeListing | handlers/blocklist_de.py:50 | 127.0.0.23 gives (True, "Listed (Return IP: 127.0.0.23)") |
| BlocklistDE.DescriptionsLackColon | handlers/blocklist_de.py:7-29 | no attack kind contains a colon |
| BlocklistDE.CheckRoundTrip | handlers/blocklist_de.py:47-50 | a listing carries its address back to `create_result` |
| SpamRATS.Check | handlers/spamrats.py:32-52 | never raises; a lookup error gives (False, "Error: …"); no address is "Not listed"; a table hit is "Listed in <list>" tagged with the address; an unknown address is "Listed (Unknown return code: …)" |
| SpamRATS.SpamListing | handlers/spamrats.py:42-45 | 127.0.0.38 gives "Listed in RATS-Spam" tagged with its address |
| SpamRATS.CheckReturnIp | handlers/spamrats.py:42-48 | a table hit carries its address back to `create_result`; an unknown code carries none, and holds no "Return IP:" |
| Mailspike.Check | handlers/mailspike.py:31-40 | a lookup error escapes; no address is "Not listed"; every address is listed, tagged with its reputation level or "Listed" |
| Mailspike.ExcellentReputationListed | handlers/mailspike.py:37-38 | even H5 (127.0.0.20) is reported as listed |
| Mailspike.UnknownCodeListing | handlers/mailspike.py:40 | 127.0.0.2 gives (True, "Listed (Return IP: 127.0.0.2)") |
| Mailspike.LowLevelsLackColon | handlers/mailspike.py:8-13 | the texts of L5 to L1 and LHO contain no colon |
| Mailspike.HighLevelsLackColon | handlers/mailspike.py:14-18 | the texts of H1 to H5 contain no colon |
| Mailspike.DescriptionsLackColon | handlers/mailspike.py:7-19 | no reputation text contains a colon |
| Mailspike.CheckRoundTrip | handlers/mailspike.py:37-40 | a Mailspike listing carries its address back to `create_result` |
| Hostkarma.Check | handlers/hostkarma.py:39-59 | never raises; a lookup error gives (False, "Error: …"); no address is "Not listed"; a table hit is its text tagged with the address; an unknown address is "Listed (Unknown return code: …)" |
| Hostkarma.WhitelistIsListed | handlers/hostkarma.py:49-52 | the whitelist answer 127.0.0.1 is a listing |
| Hostkarma.ColorsAreDisjointCodes | handlers/hostkarma.py:8-20 | every colour list holds only known codes, and no code is in two lists |
| Hostkarma.ColorsCoverCodes | handlers/hostkarma.py:8-20 | every known code is in some colour list |
| Hostkarma.ColorNames | handlers/hostkarma.py:16-20 | the colours are red, yellow and green |
| Hostkarma.CodeColors | handlers/hostkarma.py:16-20 | .2 and .4 are red, .3 is yellow, .1 and .5 are green |
| Hostkarma.ShortTextsLackColon | handlers/hostkarma.py:9-11 | the whitelist, blacklist and yellowlist texts contain no colon |
| Hostkarma.BrownlistLacksColon | handlers/hostkarma.py:12 | the brownlist text contains no colon |
| Hostkarma.NoblLacksColon | handlers/hostkarma.py:13 | the NOBL text contains no colon |
| Hostkarma.DescriptionsLackColon | handlers/hostkarma.py:8-14 | no text of the table contains a colon |
| Hostkarma.CodesArePlain | handlers/hostkarma.py:8-14 | no known code contains a colon or ends in ')' |
| Hostkarma.CheckReturnIp | handlers/hostkarma.py:49-55 | every table hit carries its address back to `create_result`; an unknown code carries none |
| Hostkarma.HitStatus | handlers/hostkarma.py:49-52 | `create_result` gives a table hit the capitalised colour of its code |
| Hostkarma.CapitalizedColors | handlers/hostkarma.py:16-20 | the colours capitalise to "Red", "Yellow" and "Green" |
| Hostkarma.BlacklistIsRed | handlers/hostkarma.py:10-17 | `create_result` shows the blacklist answer as "Red" |
| Hostkarma.YellowlistIsYellow | handlers/hostkarma.py:11-18 | `create_result` shows the yellowlist answer as "Yellow" |
| Hostkarma.WhitelistIsGreen | handlers/hostkarma.py:9-19 | `create_result` shows the whitelist answer as "Green", although it is listed |
| CinsScore.IsCacheValid | handlers/cinsscore.py:63-78 | `_is_cache_valid`: the file exists and its age is less than 24 hours |
| CinsScore.LoadCachedList | handlers/cinsscore.py:80-90 | `_load_cached_list`: the stripped non-empty lines of a readable file, and the empty set when reading fails |
| CinsScore.CacheAfter | handlers/cinsscore.py:104-106 | the cache file after `check`: rewritten with the fetched text, stamped now, only when it was stale and the download succeeded |
| CinsScore.CheckSpec | handlers/cinsscore.py:92-116 | `check`: the download error when stale and the download failed; otherwise listed iff the target is in the set loaded from the cache after the download |
| CinsScore.CinsScoreHandler.constructor | handlers/cinsscore.py:12-18 | the handler starts from the given cache file |
| CinsScore.CinsScoreHandler.DownloadList | handlers/cinsscore.py:41-61 | succeeds iff the text was fetched; on success the cache holds that text, stamped now; on failure the cache is unchanged |
| CinsScore.CinsScoreHandler.Check | handlers/cinsscore.py:92-116 | returns what the cached list says about the target; downloads once iff the cache is stale; the new cache is the one CacheAfter gives |
| CinsScore.ExpiryBoundary | handlers/cinsscore.py:65-71 | a file is fresh up to one second short of 24 hours; a file exactly 24 hours old, or older, is expired |
| CinsScore.MissingCacheIsStale | handlers/cinsscore.py:65-67 | a missing file is never valid and loads as the empty set |
| CinsScore.FreshCacheIgnoresDownload | handlers/cinsscore.py:104-107 | with a fresh cache the download outcome is irrelevant and the file is not rewritten |
| CinsScore.FailedDownload | handlers/cinsscore.py:106-107 | a failed download of a stale cache gives (False, "Error: Could not download CINSscore list") and leaves the file alone |
| CinsScore.SuccessfulDownload | handlers/cinsscore.py:104-113 | after a successful download the target is listed iff it is an entry of the fetched text, and the new cache is fresh |
| CinsScore.UnreadableCacheListsNothing | handlers/cinsscore.py:88-90 | an unreadable fresh cache lists nothing |
| CinsScore.LoadedAreUnpadded | handlers/cinsscore.py:85 | every loaded entry is non-empty and stripped |
| CinsScore.PaddedTargetNeverListed | handlers/cinsscore.py:111 | a target that is empty or has whitespace at either end is never listed, because it is compared unstripped |
| CinsScore.UniversalNewlinesKeeps | handlers/cinsscore.py:84-85 | text without carriage returns is read as written |
| CinsScore.EntriesOfUnpaddedLines | handlers/cinsscore.py:85 | for already-stripped lines, the entries are exactly the non-empty lines |
| CinsScore.LinesOfWrittenList | handlers/cinsscore.py:84-85 | a list written one address per line reads back as those lines, plus an empty last line when the text ends in a newline |
| CinsScore.EntriesOfWrittenList | handlers/cinsscore.py:84-85 | a list written one address per line loads as exactly its set of addresses, with or without a final newline |
| Config.RegistrySize | config/dnsbl_config.py:3-115 | the registry has 17 services |
| Config.KeysAreNames | config/dnsbl_config.py:3-115 | every key is the name of its service |
| Config.KeysAreDistinct | config/dnsbl_config.py:3-115 | no key occurs twice |
| Config.CategoriesAreKnown | config/dnsbl_config.py:3-115 | every category is spam, botnet, anonymization, scanner, badips or reputation |
| Config.Find | config/dnsbl_config.py:3-115 | finds the service under a key, or none iff no entry has that key |
| Config.Lookup | config/dnsbl_config.py:3-115 | `DNSBL_SERVICES.get(key)`: none iff the key is absent; otherwise a service named by the key with a known category |
| Config.LookupAt | config/dnsbl_config.py:3-115 | the service at each registry position is the one found under its key |
| Config.FindIndex | config/dnsbl_config.py:3-115 | the position of the first entry with the key, or the length when there is none |
| Config.KeyIndex | config/dnsbl_config.py:3-115 | the position of a key in the registry, or the length for an absent key |
| Config.KeyIndexAt | config/dnsbl_config.py:3-115 | each key's position is where it is filed |
| ReputationChecker.SpecialServicesHaveHandlers | reputationchecker.py:52-62 | a registry service is marked special iff `HANDLERS` has a handler for its key |
| ReputationChecker.HandlerCheck | reputationchecker.py:82-83 | a handler raises only if it is one of the five that let errors through and the lookup failed, and then with the lookup's message |
| ReputationChecker.GenericCheck | reputationchecker.py:86-106 | never raises; the answer is found → listed with "Listed (Return IP: first)", NXDOMAIN → "Not listed", other failure → "Error: …" |
| ReputationChecker.GenericMatchesBaseCheck | reputationchecker.py:86-102 | for a non-empty answer or NXDOMAIN, the generic path says what the base check with empty tables says |
| ReputationChecker.GenericReportsFailure | reputationchecker.py:103-106 | a resolver failure that the base check raises is an error result on the generic path |
| ReputationChecker.ServiceCheck | reputationchecker.py:80-106 | the handler is used iff the service is special and has one; a raise happens iff a propagating handler's lookup failed |
| ReputationChecker.CheckDnsListSpec | reputationchecker.py:64-116 | an unknown key raises KeyError, whose message is the key's `repr`; a result names the key and carries the configured description and category; the status is "Listed" iff the service's check listed the target, else "Not Listed", and the details are that check's; it fails iff a propagating handler's lookup failed, with that check's message |
| ReputationChecker.GenericServicesNeverRaise | reputationchecker.py:85-114 | a service that is not special always gets a result, built from the generic path |
| ReputationChecker.SpecialKeyHasHandler | reputationchecker.py:52-62 | every service marked special has a handler in `HANDLERS` |
| ReputationChecker.SpecialServicesReportHandler | reputationchecker.py:80-114 | a special service other than CINSscore reports its handler's `(is_listed, details)` as status and details, or raises what the handler raises |
| ReputationChecker.CinsScoreServiceReportsList | reputationchecker.py:80-114 | the CINSscore service never raises and reports the cached-list check as status and details |
| ReputationChecker.CheckDnsList | reputationchecker.py:64-116 | returns CheckDnsListSpec; only the CINSscore cache may change, as CacheAfterDnsList gives |
| ReputationChecker.Step | reputationchecker.py:241-252 | one pass of `main`'s loop: skip an entry the filter rejects; otherwise check it and keep the result unless the check raised |
| ReputationChecker.RunChecks | reputationchecker.py:240-252 | the results and the CINSscore cache after the loop has gone through the first n entries |
| ReputationChecker.DnsListStep | reputationchecker.py:246-252 | one selected entry adds the result of its check, or nothing when the check raised |
| ReputationChecker.CheckEntry | reputationchecker.py:242-252 | one pass of `main`'s loop: skip an unselected entry, keep the result of a check that did not raise |
| ReputationChecker.CheckEntries | reputationchecker.py:240-253 | the loop over the entries yields RunChecks over all of them, results and cache |
| ReputationChecker.CheckTarget | reputationchecker.py:234-253 | an invalid target stops before any service is checked; otherwise the results are those of the loop over the registry |
| ReputationChecker.StepAddsAtMostOne | reputationchecker.py:246-252 | a pass over an entry adds nothing or one result, from that entry |
| ReputationChecker.AppendKeepsOrder | reputationchecker.py:249 | appending a result of the current entry keeps the results in entry order |
| ReputationChecker.RunChecksOrder | reputationchecker.py:240-253 | at most one result per entry, in entry order, each from an entry the filter selects and carrying its category |
| ReputationChecker.NoRaiseNoDrop | reputationchecker.py:240-252 | when no check of a selected entry raises, the loop keeps exactly one result per selected entry |
| ReputationChecker.SelectedCount | reputationchecker.py:242-244 | the number of entries the filter selects is at most the number of entries, and all of them without a filter |
| ReputationChecker.SelectedReported | reputationchecker.py:246-252 | a selected entry whose check cannot raise is reported, whatever the other entries' checks do |
| ReputationChecker.FilterKeepsCategory | reputationchecker.py:242-244 | with a non-empty filter every result has the filtered category |
| ReputationChecker.RegistryKeysDistinct | config/dnsbl_config.py:3-115 | each registry key is filed once |
| ReputationChecker.DnsListCheckerLabels | reputationchecker.py:108-114 | `check_dns_list` labels each result with the key and category of the service it checked |
| ReputationChecker.ResultsFollowRegistry | reputationchecker.py:240-253 | `main` collects at most one result per service, in the order of `DNSBL_SERVICES` |
| ReputationChecker.CategoryFilterHolds | reputationchecker.py:242-244 | with `--category c` and c non-empty, only services of category c are reported |
| ReputationChecker.EveryServiceReported | reputationchecker.py:240-253 | without a filter and without resolver failures all 17 services are reported |
| ReputationChecker.EverySelectedServiceReported | reputationchecker.py:240-252 | every service the filter selects whose check does not raise is reported, even when other services raise |
| ReputationChecker.SelectedServicesCounted | reputationchecker.py:240-252 | without resolver failures `main` reports one result per service the filter selects |
| ResultGrouping.CategoryOrder | reputationchecker.py:130-134 | the categories of the results, each once; every result's category is among them and each comes from some result |
| ResultGrouping.InCategory | reputationchecker.py:130-134 | the results of one category: all of that category, none when the category does not occur |
| ResultGrouping.GroupResultsByCategory | reputationchecker.py:118-136 | the keys are the categories in first-appearance order, and each list holds exactly the results of its category in their original order |
| ResultGrouping.GroupedStep | reputationchecker.py:132-134 | appending a result to its category's list keeps every list exact |
| ResultGrouping.AbsentCategoryEmpty | reputationchecker.py:132-133 | a category not yet seen has no results |
| ResultGrouping.InCategoryStep | reputationchecker.py:134 | one more result joins its own category's list and no other |
| ResultGrouping.OrderStep | reputationchecker.py:132-133 | one more result adds its category to the key order iff the category is new |
| ResultGrouping.Count | reputationchecker.py:198 | a count never exceeds the number of results |
| ResultGrouping.InCategoryAppend | reputationchecker.py:134 | appending a result extends only its own category's list |
| ResultGrouping.CountAppend | reputationchecker.py:198 | appending a result adds one to the count iff it qualifies |
| ResultGrouping.SumOverAppendedResult | reputationchecker.py:197-200 | summed over distinct categories, an appended result is counted once iff its category is among them |
| ResultGrouping.SumOverAppendedCategory | reputationchecker.py:197-200 | a sum over one more category adds that category's count |
| ResultGrouping.GroupsPartitionCounts | reputationchecker.py:190-200 | every result is counted in exactly one group: the per-group counts sum to the overall count |
| ResultGrouping.SeenCategoryStep | reputationchecker.py:132-134 | a result of a category already seen keeps the partition of counts |
| ResultGrouping.NewCategoryStep | reputationchecker.py:132-134 | a result of a new category keeps the partition of counts |
| ResultGrouping.Row | reputationchecker.py:197-207 | a summary row's listed and not-listed counts add up to its total, the size of its group |
| ResultGrouping.CategorySummary | reputationchecker.py:190-207 | one row per category, in the grouped dict's order |
| ResultGrouping.CountAny | reputationchecker.py:199 | counting every result gives the number of results |
| ResultGrouping.RowsSum | reputationchecker.py:197-207 | the rows' totals and listed counts are the sums over their categories |
| ResultGrouping.SummaryAddsUp | reputationchecker.py:190-213 | the category summary's totals sum to the number of results, and its listed counts to the overall `listed_count` |
| ResultGrouping.OverallStyle | reputationchecker.py:211-219 | the overall panel is red iff some result is "Listed", and green otherwise |
| ResultGrouping.ListedPositive | reputationchecker.py:211-216 | `listed_count` is positive iff some result is "Listed" |
| ResultDisplay.DisplayReturnIp | reputationchecker.py:161-162 | an address is read iff the details contain "Return IP:"; it has no ')' and no surrounding whitespace |
| PyStr.StripKeepsOut | reputationchecker.py:162 | stripping adds no character |
| PyStr.HexDigits | reputationchecker.py:77 | the fixed-width lower-case hex digits `repr` writes in `\x`, `\u` and `\U` escapes |
| PyStr.Repr | reputationchecker.py:77 | the KeyError message of `DNSBL_SERVICES[service]`, `repr(service)`: the text between one quote kind at both ends |
| PyStr.ReprBodyEscapesQuotes | reputationchecker.py:77 | inside the quotes, every quote of the chosen kind follows a backslash |
| PyStr.ReprWellQuoted | reputationchecker.py:77 | `repr` uses double quotes iff the text holds a single quote and no double quote, and escapes the chosen quote inside |
| PyStr.ReprOfPlain | reputationchecker.py:77 | printable text without quotes or backslashes is shown as itself in single quotes, as every registry key would be |
| PyStr.ReprOfApostrophe | reputationchecker.py:77 | printable text with a single quote and no double quote or backslash is shown in double quotes, as `repr("it's")` is `"it's"` |
| ResultDisplay.StatusStyle | reputationchecker.py:158-171 | the style is red, yellow or green; for every service but Hostkarma it is red iff the status is "Listed" |
| ResultDisplay.DisplayDetails | reputationchecker.py:173-178 | rows of services without a handler show their details; other rows show the details or a description from the handler's table |
| ResultDisplay.TagColon | handlers/base.py:43 | " (Return IP: " has its only colon at index 11, right after "Return IP" |
| ResultDisplay.TaggedFirstDisplayMarker | reputationchecker.py:161-162 | in tagged details with a colon-free description, the first "Return IP:" is the one of the tag |
| ResultDisplay.StripSpacedAddress | reputationchecker.py:162 | stripping " ip)" leaves "ip)" |
| ResultDisplay.DisplayReadsTaggedAddress | reputationchecker.py:161-162 | the display reads back exactly the address a handler tagged its details with |
| ResultDisplay.ReadSpacedAddress | reputationchecker.py:161-162 | the text " ip)" after the marker reads back as the address |
| ResultDisplay.ListingShowsDescription | reputationchecker.py:173-178 | a handler's listing with a known code shows that code's description alone |
| ResultDisplay.SpamhausSblShown | reputationchecker.py:173-178 | a Spamhaus SBL listing shows "SBL (General spam source)" |
| ResultDisplay.DroneBLKeepsDetails | reputationchecker.py:173-178 | a DroneBL row whose address contains a dot shows its own details, because DroneBL's table is keyed by code |
| ResultDisplay.DroneBLKeysLackDot | handlers/dronebl.py:7-25 | no DroneBL code contains a dot |
| ResultDisplay.HostkarmaAddressesPlain | handlers/hostkarma.py:9-13 | all five Hostkarma codes are read back unchanged |
| ResultDisplay.HostkarmaStyle | reputationchecker.py:159-168 | a Hostkarma row is styled with its address's colour, whatever its status |
| ResultDisplay.HostkarmaDetails | reputationchecker.py:174-178 | a Hostkarma table hit is shown under its bare description |
| ResultDisplay.HostkarmaWhitelistShownGreen | reputationchecker.py:158-178 | the whitelist answer is "Listed", yet it is styled green and shown as "Whitelist - Trusted nonspam" |
| ResultDisplay.HostkarmaListsShownInTheirColours | reputationchecker.py:158-168 | the blacklist and yellowlist answers are styled red and yellow |

## Left out

- IPv6. `ipaddress.ip_address` in `utils/ip.py` also accepts IPv6
  addresses. The model restricts it to the IPv4 dotted-decimal rules of
  current CPython: four parts of 1 to 3 ASCII digits, no leading zero,
  at most 255.
- Python's `int()` also accepts non-ASCII Unicode decimal digits. The
  model reads the ASCII digits 0-9 only, with single underscores between
  them and one optional sign. The whitespace `int()` skips at either end
  is `str.isspace` without the separators U+001C to U+001F: `int()` maps
  non-ASCII whitespace to a blank and then skips only ASCII whitespace.
- The digit limit of `int()` is fixed at 4300, the default of CPython
  3.11 and later (and of the 3.7 to 3.10 security releases). Older
  interpreters have no limit, and `sys.set_int_max_str_digits` or
  `PYTHONINTMAXSTRDIGITS` can change it; the model does not follow
  either.
- `str.capitalize` is modelled on ASCII letters only.
- The DNS resolver is a parameter, not a library call. It is taken to be
  deterministic: the same name gets the same outcome during one run.
- The HTTP download, the directory creation and the file write of
  `_download_list` are one outcome: the fetched text, or nothing. A
  failure part-way through the write is not modelled.
- `_get_cache_dir` is left out. The model has no path, only the cache
  file's fields: whether it exists, its modification time, its text,
  and whether it can be read.
- Time is a whole number of seconds. Sub-second file ages are not
  modelled. `_is_cache_valid` subtracts two naive local-time datetimes,
  so `now` and the file's modification time are local wall-clock
  seconds: across a daylight-saving change a cache stays fresh for 23
  or 25 real hours, and the model, like the code, counts 24 wall-clock
  hours.
- PyStr.Repr: non-ASCII characters other than the Latin-1 controls, the
  no-break space, the soft hyphen and the Unicode spaces and line
  separators are taken as printable. CPython's `repr` also escapes the
  remaining format, private-use and unassigned characters, which needs
  the Unicode character database.
- Logging, the Rich tables and panels, the summary sentence, and the
  Click command line are left out. This is presentation and plumbing.
  The model keeps what they show: the status style, the details text,
  the category counts and the colour of the overall panel.
- The `return_codes` and `color_logic` fields of `DNSBLService` are left
  out. No code in the tool reads them.
- `create_result` is modelled and its properties are proved. However,
  `check_dns_list` never calls it, and builds the result itself.
- Table sizes (eight Spamhaus codes, 21 Blocklist.de codes, 11 Mailspike
  codes, 4 SpamRATS codes) are not proved. The model writes the tables
  out entry for entry, and proves the per-entry facts.
