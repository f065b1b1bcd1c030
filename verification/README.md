# Models of the bastion portal

The project models the parts of the portal whose correctness rests on an algorithm or a protocol rather
than on routing, and proves what each of them is for. `dafny verify dfyconfig.toml` checks everything.

| module | what it models |
|---|---|
| `SqliteLock` | the re-entrant lock around SQLite open and close, as a step system of any number of threads with the GIL, the two C mutexes and finalizers |
| `LikePattern` | escaping of user text for `LIKE ... ESCAPE '\'`, against the like predicate of section 8.5 of ISO/IEC 9075-2 |
| `BackupPurge` | retention of database backups: newest files, one stamp per day, compression |
| `IpNetwork`, `Ipv4Text` | prefix blocks, the allow / deny operand rules, canonical IPv4 text |
| `ClientIp` | client address behind trusted proxies, and the address kept for a session |
| `Base64Url` | unpadded base64url and the decoder that pads it again |
| `AcmeClient` | one HTTP-01 issuance against an arbitrary server |
| `OAuthConfig`, `CookieLines`, `ConfigReader` | the generated oauth2-proxy file, the scanner that reads cookie settings in it or in any hand-written file, and a strict reader of the whole file |
| `EncryptSwap` | in-place encryption of the database under crashes, and the start-up guard |
| `Versions`, `Dependencies` | version classification, reconciliation of the inventory, parallel refresh |
| `RuntimeSecrets` | stored secrets, their process-wide caches, and runs of restarts |
| `RealmForms`, `Realms` | what the realm schemas accept and normalise; the realm registry, its handlers and the port allocator |
| `AppCatalogue` | creation and partial update of applications, access-mode rules |
| `Healthcheck` | the failure counter, the restart decision, the processes it reaches |
| `PyText` | strip, split, decimal numerals and the other text primitives shared by the models |

Code that only computes is modelled by functions. Code that works step by step is modelled by methods and
classes whose fields are those of the source, each tied by its `ensures` to a specification function; the
properties are then proved about that function for every input and every run.

Files, databases, servers, clocks and random values are parameters: the ACME server is an arbitrary sequence of
replies, a crash or a kill may come at any point, lookups finish in any order, a commit or a write may fail.

## Where a natural claim is false

Each of these is proved with the exact condition under which the claim holds, and with a concrete case in which it fails.

- Runtime secrets: a second ensure is not quiet when the environment sets the signing secret to the internal token
  (`SecondEnsureIsQuiet`, `TokenAsSigningNeverSettles`; case `TokenAsSigningExample`). After a failed commit the caches
  may hold secrets that were never stored (`CommitFailure`; case `FailedCommitSealsWithUnstored`).
- Realms: a refused create or update persists when the native-client block was accepted before the access-request
  block was refused, because the audit entry of the first commits (`RefusalLeavesRows`, `RefusedCreationPersists`; case
  `RefusedCreationExample`). An ok status may have been earned by settings other than the realm's own: a test of other
  settings, an update that is not tested again, a secret tested without the blanks it is stored with (`StepVouches`;
  cases `EnabledUntested`, `PaddedSecretIsUntested`), or stored settings that the test normalises (`PlainTestIsOwn`).
- Realms: access requests may stay on without provisioning after an update that is refused and committed all the same
  (`StepKeepsAccess`; case `AccessStranded`).
- Health probe: a probe killed before its counter write, or between truncating the file and writing it, is not
  counted (`CounterFollowsStreak`; case `KilledProbesAreForgotten`). A restart needs that many probes in a row without
  success exactly while the file counts no more than the streak (`GivesUpOnlyAfterStreak`), which a reset refused at the
  open can break (case `RefusedResetGivesUpEarly`).
- Encryption: a database without tables never becomes encrypted (`EncryptsIffTables`; case `TablelessStaysPlain`).
- ACME: a nonce is sent twice when a request is redirected with its method kept, or when a reply carries no fresh nonce
  (`NonceNeverReused`; cases `RedirectReusesNonce`, `SilentReplyReusesNonce`).
- Versions: across epochs the reported kind of update can be wrong (`StatusAcrossEpochs`; case `EpochMisreported`).
- Configuration: a DEL in a field, or a control character in the slug, makes the file unreadable to a strict TOML reader
  (`TomlRoundTrip`, `FileReadsBack`; cases `DelIsUnreadable`, `ExamplesAreUnreadable`).
- Backups: a plain file next to a compressed file of other contents is lost when it leaves the newest ones
  (`RestoreIsKept`; case `DifferentFormsAreLost`).
- Inventory: a package listed twice takes the answer that arrives last, so the refresh depends on the order unless the
  answers have the same effect (`RefreshIgnoresOrder`; case `DuplicatesDependOnOrder`).

## Model

| member | source | states |
|---|---|---|
| SqliteLock.StepKeepsInv | app/db_cipher.py:185-272 | every step of any thread (GIL, lock, mutexes, finalizer, return) keeps the ownership invariant: lock depth equals nesting, mutex owners are the threads inside C |
| SqliteLock.RunKeepsInv | app/db_cipher.py:185-272 | the same along every schedule |
| SqliteLock.MutualExclusion | app/db_cipher.py:263-272 | in every state reachable by any number of threads at most one thread is inside open or close, and the lock depth is exactly that thread's nesting |
| SqliteLock.NeverStuck | app/db_cipher.py:185-213 | in every reachable state with an unfinished thread some step is possible |
| SqliteLock.RunsAreBounded | app/db_cipher.py:220-247 | every schedule ends: its length is bounded by a weight of the starting state |
| SqliteLock.MaximalRunsFinish | app/db_cipher.py:220-272 | a schedule that cannot go on has finished all work and left GIL, mutexes and lock free |
| SqliteLock.StuckWithoutLock | app/db_cipher.py:187-199 | without the lock, one opener and one closer reach a state where no thread at all can step |
| LikePattern.ThreePassesAreOne | app/sql_like.py:8-14 | the three ordered replacements equal one escaping pass per character |
| LikePattern.EscapedPrefix | app/sql_like.py:8-14 | an escaped text in front of any valid pattern consumes exactly that literal text |
| LikePattern.ContainsMeansOccurs | app/sql_like.py:17-19 | the pattern is valid, and a text matches it if and only if the needle occurs in it contiguously |
| LikePattern.AccountPatternMeansPrefix | app/web/pending_user_service.py:118 | the account lookup matches exactly the texts that start with the literal name and `@` |
| LikePattern.IlikeMeansFoldedOccurs | app/sql_like.py:17-19 | under case folding the pattern means that the folded needle occurs in the folded text |
| LikePattern.EscapeOrderMatters | app/sql_like.py:10-13 | with the backslash replaced last, a pattern matches a text that does not contain the needle |
| BackupPurge.BackupDirectory.Scan | scripts/purge-portal-db-backups.py:51-59 | lists every recognised backup once, newest first, plain before compressed |
| BackupPurge.BackupDirectory.GzipFile | scripts/purge-portal-db-backups.py:34-41 | compresses a plain file, trusting an existing compressed one, and removes the plain file |
| BackupPurge.BackupDirectory.NewestPerDay | scripts/purge-portal-db-backups.py:65-74 | holds, for every day in the window and no other, the newest stamp of that day |
| BackupPurge.DayIsCalendarDay | scripts/purge-portal-db-backups.py:65-74 | stamps of one day are those between two midnights |
| BackupPurge.WindowIsDays | scripts/purge-portal-db-backups.py:65 | a stamp is in the window exactly when it is at most that many days old |
| BackupPurge.BackupDirectory.Sweep | scripts/purge-portal-db-backups.py:76-92 | handles each stamp once and counts the removed ones |
| BackupPurge.BackupDirectory.Purge | scripts/purge-portal-db-backups.py:44-92 | leaves the specified files, and returns the numbers of kept and removed stamps |
| BackupPurge.TopStampsAreTop | scripts/purge-portal-db-backups.py:61-63 | a stamp is among the first N listed files if and only if fewer than N files have newer stamps |
| BackupPurge.KeepIsKept | scripts/purge-portal-db-backups.py:61-74 | the newest stamps together with the map of days are exactly the stamps to keep |
| BackupPurge.SweptFirstAll | scripts/purge-portal-db-backups.py:77-91 | sweeping the listing entry by entry ends in the file set defined stamp by stamp |
| BackupPurge.SurvivorsAreKept | scripts/purge-portal-db-backups.py:61-91 | surviving stamps are exactly those of the newest files plus the newest in-window stamp of each day; top stamps and unknown files are untouched, all other survivors are compressed only |
| BackupPurge.EveryStampIsCounted | scripts/purge-portal-db-backups.py:92 | kept plus removed is the number of distinct stamps |
| BackupPurge.RestoreIsKept | scripts/purge-portal-db-backups.py:34-41 | a kept backup restores to the same bytes if and only if it is a top stamp, has one form, or both forms hold the same bytes |
| BackupPurge.DifferentFormsAreLost | scripts/purge-portal-db-backups.py:34-41 | a concrete directory in which a kept stamp restores to other bytes after the purge |
| BackupPurge.PurgeTwice | scripts/purge-portal-db-backups.py:44-92 | a second purge at the same clock changes no file and keeps every stamp |
| IpNetwork.MaskedIsValid | app/ip_cidrs.py:69-77 | masking the host bits gives an aligned block that contains the address |
| IpNetwork.NestedOrDisjoint | app/ip_cidrs.py:80-100 | two blocks sharing an address are nested, the longer prefix inside |
| IpNetwork.OverlapsMeansShared | app/ip_cidrs.py:97-99 | the end-point overlap test holds if and only if some address lies in both blocks |
| IpNetwork.SameAddressesSameNetwork | app/ip_cidrs.py:103-110 | blocks with the same addresses are the same block |
| IpNetwork.SizeBound | app/ip_cidrs.py:59 | the minimum prefix holds if and only if a block has at most 2^24 IPv4 or 2^96 IPv6 addresses |
| IpNetwork.Accepted4 | app/ip_cidrs.py:80-100 | an IPv4 operand is accepted if and only if it is small enough, not the unspecified address, holds no multicast address and, for deny, shares no address with the infrastructure |
| IpNetwork.Accepted6 | app/ip_cidrs.py:80-100 | an IPv6 operand is accepted if and only if it has at most 2^96 addresses, not all unspecified, not all multicast (mapped ones included) and, for deny, shares no address with the infrastructure |
| IpNetwork.NoMulticast6 | app/ip_cidrs.py:80-100 | an accepted IPv6 operand holds no address of ff00::/8 |
| IpNetwork.DenyIsStricter | app/ip_cidrs.py:80-100 | accepted for deny means accepted for allow and no shared infrastructure address |
| IpNetwork.ReasonExactly | app/ip_cidrs.py:80-100 | for any operand, unreadable ones included, which of the four reasons is given, in terms of the addresses it denotes |
| IpNetwork.InfrastructureAddresses | app/ip_cidrs.py:50-64 | the infrastructure networks in dotted parts |
| IpNetwork.SpecialAddresses | app/ip_cidrs.py:93-94 | the multicast and unspecified addresses as ranges |
| Ipv4Text.AddressRoundTrip | app/ip_cidrs.py:69-77 | reading a printed IPv4 address gives the address back |
| Ipv4Text.AddressesExactly | app/ip_cidrs.py:69-77 | an IPv4 address is read from its dotted form and from no other text |
| Ipv4Text.NetworksExactly | app/ip_cidrs.py:69-77 | an IPv4 operand is a dotted address, alone or with a slash and a readable prefix, and nothing else |
| Ipv4Text.MasksExactly | app/ip_cidrs.py:69-77 | a mask is read as the one prefix whose netmask it is |
| Ipv4Text.PrefixesExactly | app/ip_cidrs.py:69-77 | what follows the slash is read as a number below 33, else as the prefix whose dotted netmask it is, else as the prefix whose netmask it complements, and as nothing otherwise |
| Ipv4Text.NetworkRoundTrip | app/ip_cidrs.py:69-77 | reading a printed network gives the network back, and a bare address its /32 |
| Ipv4Text.CanonicalIsStable | app/ip_cidrs.py:103-110 | canonical text denotes the same network as its operand and is its own canonical form |
| Ipv4Text.CanonicalDecidesAddresses | app/ip_cidrs.py:103-110 | two operands have equal canonical text if and only if they denote the same address set |
| Ipv4Text.CanonicalIgnoresHostBits | app/ip_cidrs.py:103-110 | host bits do not change the canonical text |
| Ipv4Text.CanonicalIsBare | app/ip_cidrs.py:103-110 | the canonical text has a slash exactly when the network is more than one address |
| Ipv4Text.OperandAcceptedExactly | app/ip_cidrs.py:80-100 | whatever the text, it is accepted as an operand if and only if it reads as a network that is not too broad, neither all unspecified nor all multicast and, for deny, shares nothing with the infrastructure |
| Ipv4Text.OperandsAreRead | app/ip_cidrs.py:69-77 | blank text and text outside ASCII is no operand; any other text is the IPv4 network it reads as, or else whatever the IPv6 reader makes of it |
| ClientIp.ParseCidrList | app/request_client_ip.py:71-81 | the loop yields exactly the readable entries, in order |
| ClientIp.ProxyCache.Lookup | app/request_client_ip.py:84-106 | whatever was cached before, the answer is that of the settings given now |
| ClientIp.ProxyCache.Clear | app/request_client_ip.py:103-105 | empties the cache, so the next answer is parsed anew |
| ClientIp.JoinedSettings | app/request_client_ip.py:84-121 | joining the settings into one cache key and splitting it gives exactly their entries, a bar inside a setting separating further ones; without bars these are the settings |
| ClientIp.TrustExactly | app/request_client_ip.py:108-135 | a peer is trusted if and only if it is an address, of either version, that a configured entry contains, or the test client under test settings |
| ClientIp.EntriesExactly | app/request_client_ip.py:71-81 | an entry denotes its IPv4 network, else the IPv6 network its text reads as, else nothing |
| ClientIp.TrustIsMembership | app/request_client_ip.py:108-121 | an IPv4 peer is trusted if and only if a configured entry contains it |
| ClientIp.HopsExactly | app/request_client_ip.py:44-52 | infrastructure hops are blank and unreadable text and the addresses of three IPv4 networks |
| ClientIp.ClientsExactly | app/request_client_ip.py:138-153 | real clients are the addresses of either version outside the three IPv4 networks |
| ClientIp.XffClientCandidates | app/request_client_ip.py:146-153 | the loop yields the real clients of X-Forwarded-For, left to right |
| ClientIp.HeadersNeedTrust | app/request_client_ip.py:177-226 | headers change nothing for an untrusted peer; for a trusted one the answer is a valid non-infrastructure address, or empty if and only if no header offers one |
| ClientIp.FirstSourceWins | app/request_client_ip.py:213-226 | behind a trusted peer the answer is the first real client in the order X-Real-IP, X-Forwarded-For left to right, portal header; no earlier source is a client |
| ClientIp.FoldGivesBest | app/request_client_ip.py:55-68 | folding any sightings onto any stored text gives the first real client among them all, else the first non-blank one; only without sightings is the stored text left as it is |
| ClientIp.FoldFromNothing | app/request_client_ip.py:55-68 | the same from an empty session |
| Base64Url.EncodeShape | app/acme/native_client.py:45-46 | the text is the padded encoding without its padding, letters only, never of length 1 modulo 4 |
| Base64Url.AlphabetIsStandard | app/acme/native_client.py:45-46 | the alphabet is that of table 2 of RFC 4648 |
| Base64Url.GroupIsBits | app/acme/native_client.py:45-46 | three bytes become four letters in the order of their bits, six by six |
| Base64Url.RoundTrip | app/auth/breakglass_cookie_middleware.py:49-53 | re-padding by `-len % 4` and decoding gives every byte string back |
| Base64Url.Injective | app/acme/native_client.py:45-46 | equal texts come from equal bytes |
| Base64Url.TokenPayloadRoundTrip | app/auth/breakglass_cookie_middleware.py:44-57 | a token's middle segment decodes to its payload whatever header and signature are |
| Base64Url.SegmentsNeeded | app/auth/breakglass_cookie_middleware.py:49-51 | two segments are enough to find the payload, one is not |
| Base64Url.RedecodeAccepts | app/auth/breakglass_cookie_middleware.py:49-53 | a text of letters decodes if and only if its length is not 1 modulo 4 |
| AcmeClient.Client.EnsureDirectory | app/acme/native_client.py:263-283 | a first call gives the server's directory and first nonce, and fails exactly when one is missing; later calls return the stored directory and leave the nonce |
| AcmeClient.Client.SignedPost | app/acme/native_client.py:285-326 | one signed request with the nonce the previous replies left, sent again at every redirect that keeps the method; takes over the nonce of the final reply |
| AcmeClient.Client.Poll | app/acme/native_client.py:356-381 | at most timeout / interval (rounded up) requests, all to one address; stops at the first reply that decides: success only on the wanted status, the invalid error exactly on an invalid one, every earlier reply pending |
| AcmeClient.OneMorePoll | app/acme/native_client.py:356-381 | a poll before the deadline has fewer than timeout / interval polls before it |
| AcmeClient.Client.WriteToken | app/acme/native_client.py:149-161 | refuses exactly the blank names, those with a separator and those with two dots; else writes exactly the stripped name, or changes nothing when the write fails |
| AcmeClient.Client.ClearToken | app/acme/native_client.py:164-173 | removes exactly that file, or nothing when the name or the file system refuses |
| AcmeClient.Client.Authorize | app/acme/native_client.py:412-437 | the challenge file it reports is the only one it wrote, with the token's key authorization; its challenge is triggered next, then the authorization polled; success means it was seen valid |
| AcmeClient.PickedIsFirst | app/acme/native_client.py:490-494 | the challenge picked is the first one of kind http-01, and none is picked if and only if there is none |
| AcmeClient.Client.FinishOrder | app/acme/native_client.py:439-471 | success means ready, accepted finalize, valid and download were seen in that order, with the URLs of those replies |
| AcmeClient.Client.RunOrder | app/acme/native_client.py:411-484 | a certificate is installed if and only if the order completed, as the last act; the tokens returned are the files written |
| AcmeClient.Client.CleanUp | app/acme/native_client.py:485-487 | removes every listed challenge file that the file system lets go, and no other file |
| AcmeClient.Client.EnsureAccount | app/acme/native_client.py:328-354 | a saved account is used without any request; else at most two requests register one, saved only on success |
| AcmeClient.Client.PlaceOrder | app/acme/native_client.py:383-407 | success means the last request was an accepted order with at least one authorization |
| AcmeClient.Client.IssueOrRenew | app/acme/native_client.py:383-487 | against every server: no challenge file it wrote stays, no other is touched; every file written holds the token, a dot and the thumbprint for the offer just received, and is followed by the trigger and then the polls; a PEM is installed exactly on success, once and last, after an order polled ready and later valid with all authorizations valid |
| AcmeClient.NonceNeverReused | app/acme/native_client.py:285-326 | over all requests of a client no nonce is sent twice if and only if no request is redirected with its method kept and every reply followed by a request carries a fresh one |
| AcmeClient.RedirectReusesNonce | app/acme/native_client.py:232 | a 307 makes the client send a nonce twice although the reply carries a fresh one |
| AcmeClient.SilentReplyReusesNonce | app/acme/native_client.py:323-325 | a reply without a nonce makes the next request repeat the last one |
| OAuthConfig.TomlRoundTrip | app/admin/export.py:31-33 | a printed value is read back, up to its own closing quote, if and only if it has no DEL |
| OAuthConfig.DelIsUnreadable | app/admin/export.py:31-33 | a value that is one DEL cannot be read back |
| OAuthConfig.FieldsReadBack | app/admin/export.py:31-33 | an assigned value is read back from its line with nothing left over if and only if it has no DEL |
| ConfigReader.FileReadsBack | app/admin/export.py:75-142 | reading the file line by line gives exactly the intended settings, domain lists included, if and only if no field holds a DEL and the slug no control character but blanks |
| ConfigReader.ExamplesAreUnreadable | app/admin/export.py:75-142 | the files of a realm whose secret is a DEL and of one whose slug is a control character do not read back |
| ConfigReader.OnlyThatFieldIsUnprintable | app/admin/export.py:31-37 | in both the other fields are ordinary |
| ConfigReader.BannerReads | app/admin/export.py:36-37 | the comment line is legal if and only if the slug has no control character but blanks |
| OAuthConfig.FieldsCannotAddLines | app/admin/export.py:36-142 | splitting the file gives exactly the intended lines, whatever the fields are |
| OAuthConfig.GenerateConfig | app/admin/export.py:75-142 | appending the lines and joining them gives the specified file |
| OAuthConfig.AddressTellsPort | app/admin/export.py:75-82 | outside a container network realms listen on loopback, on equal addresses if and only if on equal ports |
| OAuthConfig.ParseCookieSettings | app/admin/session_alignment.py:79-94 | the loops over the matches of the three patterns give the specified settings |
| CookieLines.WrittenLineIsRead | app/admin/session_alignment.py:65-76 | however a cookie line is spaced, and in any case for flags and same-site, it is matched with its key, its value and the longest blank tail |
| CookieLines.ReadLineIsWritten | app/admin/session_alignment.py:65-76 | whatever is matched at a line start is such a line: nothing else is read as a setting |
| CookieLines.KeysExactly | app/admin/session_alignment.py:65-76 | the keys each pattern knows; only the durations mind the case |
| CookieLines.DurationsExactly | app/admin/session_alignment.py:87-88 | over any text, a duration is the value of its last line as written, and absent without one |
| CookieLines.FlagsExactly | app/admin/session_alignment.py:89-90 | over any text, a flag is the lower-case value of its last line, and absent without one |
| CookieLines.SameSiteExactly | app/admin/session_alignment.py:91-93 | over any text, the same-site setting is the lower-case value of its first line, whatever the other patterns matched |
| CookieLines.MatchesOwnKeys | app/admin/session_alignment.py:65-76 | no line is taken for an option of another pattern |
| OAuthConfig.ConformExactly | app/admin/session_alignment.py:97-102 | the flags conform if and only if all three have their target value, in any case |
| OAuthConfig.ScanFile | app/admin/session_alignment.py:65-76 | each pattern finds exactly its own cookie lines in the generated file |
| OAuthConfig.SettingsReadBack | app/admin/session_alignment.py:79-102 | for all field values the file reads back as exactly the five fixed cookie settings, which conform |
| EncryptSwap.Machine.EncryptDatabase | scripts/encrypt_portal_db.py:71-131 | the step sequence with a crash after any effect, and the two checks after the replacement, equal the specified run |
| EncryptSwap.RunKeepsSafe | scripts/encrypt_portal_db.py:71-131 | at every crash point the database name holds the whole plaintext or the whole encrypted copy; once encrypted a complete backup exists |
| EncryptSwap.RunsKeepSafe | scripts/encrypt_portal_db.py:71-131 | the same after any sequence of crashed, failed and finished runs |
| EncryptSwap.RerunEndsEncrypted | app/db_cipher.py:378-406 | from any crash state one uninterrupted run ends encrypted with equal contents; the guard then accepts the key and rejects its absence, and no other key opens the file |
| EncryptSwap.GuardExactly | app/db_cipher.py:378-406 | a missing or empty file passes, a plaintext one exactly without a key, any other exactly with one |
| EncryptSwap.EncryptsIffTables | scripts/encrypt_portal_db.py:53-68 | an uninterrupted run encrypts and passes its checks if and only if the database has a table, in the main file or the WAL; otherwise contents stay in plaintext and the guard refuses the key |
| EncryptSwap.TablelessStaysPlain | scripts/encrypt_portal_db.py:53-68 | a database without tables stays in plaintext and the guard refuses the key |
| EncryptSwap.CompletedIsIdempotent | scripts/encrypt_portal_db.py:71-90 | a run after a completed one changes nothing |
| Versions.FirstDiffMeaning | app/admin/dependencies_service.py:148-162 | the first differing component is the least index at which the zero-padded releases differ |
| Versions.PaddedOrder | app/admin/dependencies_service.py:148-162 | ignoring trailing zeros is comparing zero-padded components one by one |
| Versions.StatusIsFirstDifference | app/admin/dependencies_service.py:148-162 | for equal epochs the status is major, minor or patch exactly by the first differing component of a strictly newer version, and up to date otherwise |
| Versions.UnknownExactly | app/admin/dependencies_service.py:148-162 | the status is unknown if and only if a version cannot be read |
| Versions.StatusAcrossEpochs | app/admin/dependencies_service.py:148-162 | across epochs the status follows the first difference if and only if that is past the second component or has grown |
| Versions.EpochMisreported | app/admin/dependencies_service.py:148-162 | a newer epoch with a smaller major number is reported as a patch |
| Dependencies.ParseSpecs | app/admin/dependencies_service.py:249-274 | the loop over requirement lines yields the specified packages and names seen |
| Dependencies.ParsePython | app/admin/dependencies_service.py:249-274 | runtime packages, then the development packages not named before |
| Dependencies.FreshDepsAreFresh | app/admin/dependencies_service.py:224-274 | packages added are distinct ignoring case, none was seen before, and together they are exactly the names newly seen |
| Dependencies.FreshDepsComeFromSpecs | app/admin/dependencies_service.py:224-246 | every package comes from a requirement that names it, with the version found or a note that it is not installed |
| Dependencies.NameExactly | app/admin/dependencies_service.py:165-168 | the name of a requirement is all of the name characters from its first letter or digit |
| Dependencies.AlnumExactly | app/admin/dependencies_service.py:165-168 | letters and digits by their codes |
| Dependencies.PythonKeysDistinct | app/admin/dependencies_service.py:249-274 | the parsed Python packages have distinct keys, and every named requirement is among them |
| Dependencies.EcosystemsAreDistinct | app/admin/dependencies_service.py:623-624 | the packages of both ecosystems together have distinct keys |
| Dependencies.ParseNpm | app/admin/dependencies_service.py:388-460 | one package per name of lockfile and manifest, with distinct keys and the fields of its own entries |
| Dependencies.NpmEntryFields | app/admin/dependencies_service.py:388-433 | the fields of the four kinds of npm package |
| Dependencies.Inventory.Sync | app/admin/dependencies_service.py:616-665 | upserts and deletes as specified; fails if and only if a new package is listed twice, and then leaves the rows |
| Dependencies.Inventory.SyncManifests | app/admin/dependencies_service.py:616-665 | reading both manifests and synchronising never conflicts and leaves exactly one row per package of either manifest |
| Dependencies.Inventory.Refresh | app/admin/dependencies_service.py:685-769 | stores every answer whatever order they come in, with checked plus errors equal to the number of packages |
| Dependencies.SyncOutcome | app/admin/dependencies_service.py:616-665 | one row per parsed package with its data; survivors keep latest version, last error and last check, and new rows have none |
| Dependencies.SyncTwice | app/admin/dependencies_service.py:616-665 | synchronising again changes nothing |
| Dependencies.RefreshIgnoresOrder | app/admin/dependencies_service.py:716-750 | any two completion orders give the same rows and counts if and only if packages listed more than once get answers with the same effect |
| Dependencies.RefreshOutcome | app/admin/dependencies_service.py:716-750 | then a successful lookup stores its version and classification and clears the error, a failed one keeps the latest version and records its cut error text, and no other column changes; the number checked is the number of successful lookups |
| Dependencies.DuplicatesDependOnOrder | app/admin/dependencies_service.py:716-750 | a stored package listed twice passes the synchronisation, and its row then depends on the order |
| RuntimeSecrets.SecretsModule.EnsurePortalRuntimeSecrets | app/runtime_secrets_service.py:140-252 | the new row, caches and report are those specified, with or without a successful commit |
| RuntimeSecrets.EnsureStores | app/runtime_secrets_service.py:140-252 | what stays, what the environment brings and what is drawn, secret by secret |
| RuntimeSecrets.ReportTells | app/runtime_secrets_service.py:140-252 | the report says kept exactly of readable secrets and migrated exactly of missing ones the environment sets |
| RuntimeSecrets.EnsureFillsCaches | app/runtime_secrets_service.py:225-252 | after an ensure every cache is filled, from the new row or from the environment first |
| RuntimeSecrets.SecretsModule.ResolveSessionHopSecret | app/runtime_secrets_service.py:118-137 | environment, then cache, then row, filling the cache from the row |
| RuntimeSecrets.HopPrecedence | app/runtime_secrets_service.py:118-137 | a set environment wins over cache and row, a filled cache over the row, and the row fills it |
| RuntimeSecrets.EnvHopWins | app/runtime_secrets_service.py:118-137 | over every run a set environment is what sessions are sealed with |
| RuntimeSecrets.StoredSecretsNeverChange | app/runtime_secrets_service.py:140-252 | over any run, failing commits included, a readable hop or OIDC secret never changes |
| RuntimeSecrets.CachesAgreeAlways | app/runtime_secrets_service.py:65-137 | over any run whose commits succeed each cache is empty or agrees with its source |
| RuntimeSecrets.CommitFailure | app/runtime_secrets_service.py:225-252 | after a failed commit the caches agree if and only if nothing was drawn and no hop or OIDC secret was migrated |
| RuntimeSecrets.FailedCommitSealsWithUnstored | app/runtime_secrets_service.py:225-252 | after a failed first commit sessions are sealed with a secret that is not stored |
| RuntimeSecrets.SecondEnsureIsQuiet | app/runtime_secrets_service.py:140-252 | a second ensure creates and migrates nothing if and only if the first had not to store a signing secret set to the internal token |
| RuntimeSecrets.TokenAsSigningNeverSettles | app/runtime_secrets_service.py:208-223 | in that case the migration is due again after every run |
| RuntimeSecrets.TokenAsSigningExample | app/runtime_secrets_service.py:208-223 | a concrete environment in which no run ever becomes quiet |
| RuntimeSecrets.HopCacheAgrees | app/runtime_secrets_service.py:65-137 | over any run from a readable hop secret, failing commits included, its cache is empty or holds it |
| RuntimeSecrets.HopSecretIsStable | app/runtime_secrets_service.py:118-137 | over any run, failing commits included, every later resolution yields the stored hop secret, or nothing when there is neither cache nor database |
| Realms.Registry.AdminCreate | app/admin/realms.py:487-782 | the whole handler: schema, checks, service account, flush, default flag, client block, access-request block and what each refusal leaves |
| Realms.Registry.AdminUpdate | app/admin/realms.py:809-1151 | the whole handler, with the connection test an activation needs, made with the stripped secret while the stored one is the text sent |
| Realms.CreationStores | app/admin/realms.py:658-719 | an accepted creation stores every modelled field as sent, normalised where the schema normalises, and takes the default flag from the others exactly when it asks for it |
| Realms.UpdateStores | app/admin/realms.py:918-1130 | an accepted update stores every modelled field as sent, keeps slug and a secret sent blank, never disables |
| Realms.Registry.AdminEnable | app/admin/realms.py:1379-1421 | enables exactly a realm whose last test was ok |
| Realms.Registry.AdminDisable | app/admin/realms.py:1424-1455 | disables the realm and nothing else |
| Realms.Registry.AdminTest | app/admin/realms.py:1210-1265 | throttle, body and schema refuse without effect; else the status becomes the outcome of a test with the normalised settings of the body, the stored ones where it gives none |
| Realms.TestSetsStatus | app/admin/realms.py:1252-1254 | a test that runs sets the status to ok if it succeeded and to error if not, and changes no other row |
| Realms.Registry.DeleteRealm | app/admin/realms.py:1642-1665 | deletes exactly a disabled realm that is not the default |
| Realms.FlagsAndRowsFollow | app/admin/realms.py:1379-1665 | enabling, disabling and deleting do just that to the one row, deletion exactly when it is neither default nor enabled |
| Realms.Registry.TokenCreate | app/realm_service.py:34-144 | its own schema; creates only disabled realms, and a refusal changes nothing |
| Realms.TokenCreationStores | app/realm_service.py:122-136 | an accepted body is stored as sent, disabled and untested |
| Realms.Registry.NextAvailablePort | app/admin/ports.py:17-38 | the least port of the range that no other realm has, or none if and only if all are taken |
| Realms.RangeExactly | app/admin/ports.py:17-22 | a sensible configuration is the range with both ends, any other gives 4180 to 4299 |
| Realms.CreateKeepsInv | app/admin/realms.py:569-582 | creation keeps slugs and ports distinct and at most one default, on every path |
| Realms.UpdateKeepsInv | app/admin/realms.py:895-918 | so does an update |
| Realms.StepRules | app/admin/realms.py:487-1665 | every step keeps the invariant; a realm becomes enabled only with an ok test, disappears only by a deletion when disabled and not the default, and never changes its slug |
| Realms.RunKeepsGood | app/admin/realms.py:487-1665 | the invariant holds over every run of steps |
| Realms.StepRecords | app/admin/realms.py:487-1455 | whatever the step, the status of every realm is the outcome of its latest test: none, ok or error |
| Realms.StatusIsLatestTest | app/admin/export.py:419-424 | the same over every run |
| Realms.EnabledByLatest | app/admin/realms.py:1392-1404 | a realm becomes enabled only when its latest test succeeded |
| Realms.RefusalLeavesRows | app/admin/realms.py:721-759 | a refused step changes nothing unless the client block was committed first; then it has the effect of the same form without access requests, which is accepted, except for the access-request columns and, in an update, the login columns |
| Realms.RefusedCreationPersists | app/audit/__init__.py:77-111 | a refused creation leaves a realm behind if and only if its client block was committed |
| Realms.RefusedCreationExample | app/admin/realms.py:245-265 | a valid form that asks for access requests without provisioning is refused and yet creates its realm |
| Realms.StepKeepsAccess | app/admin/realms.py:244-269 | a step keeps access requests backed by provisioning if and only if it is no committed refusal of an update that takes provisioning from a realm with access requests on |
| Realms.AccessStranded | app/admin/realms.py:1097-1112 | a refused form after which access requests are on without provisioning |
| Realms.StepVouches | app/admin/realms.py:809-1265 | a step keeps every ok status earned by exactly the realm's own settings if and only if it neither changes the settings of an ok realm, nor activates with a blank-padded secret, nor records an ok test whose normalised settings differ from those stored |
| Realms.TestedIsStored | app/admin/realms.py:899-932 | an activation tests what it stores if and only if the secret is blank or has no blanks around it |
| Realms.RunVouches | app/admin/realms.py:809-1265 | over runs without such steps every realm whose status is ok was tested with its own settings |
| Realms.EnabledUntested | app/admin/realms.py:1210-1265 | a realm enabled on a test of another issuer |
| Realms.PaddedSecretIsUntested | app/admin/realms.py:129-133 | an activating update whose secret has blanks around it: tested without them, stored with them |
| Realms.SlashIsHarmless | app/admin/schemas.py:170-176 | an issuer sent with a slash at its end tests exactly the stored settings |
| Realms.PlainTestIsOwn | app/admin/realms.py:1239-1252 | a test that overrides nothing tests the stored settings if and only if they are normal |
| RealmForms.NormIssuerSettles | app/admin/schemas.py:88-94 | a normalised issuer is normalised to itself if and only if no blank was left before its last slashes |
| RealmForms.SchemaExactly | app/admin/schemas.py:11-20 | the lengths, prefixes and characters the schemas accept |
| AppCatalogue.Catalogue.CreateApp | app/services.py:233-282 | conflict, refusal or the specified row, and no other row changes |
| AppCatalogue.Catalogue.UpdateApp | app/services.py:368-397 | the edits of the update dictionary followed by the assignments give the specified row |
| AppCatalogue.ApplyActivesyncOnUpdate | app/services.py:301-312 | leaves the two ActiveSync columns coherent and every other key alone |
| AppCatalogue.ApplyUpstreamTlsVerify | app/services.py:294-298 | forces the flag off for the gate mode and touches no other key |
| AppCatalogue.ApplyAuthBridgeOnUpdate | app/services.py:350-360 | leaves the two authentication columns coherent and every other key alone |
| AppCatalogue.CreateIsOk | app/services.py:233-282 | every created application satisfies all access rules |
| AppCatalogue.CoherentCreationIsStored | app/services.py:233-282 | a coherent request is stored as it was sent |
| AppCatalogue.CreationColumns | app/services.py:233-282 | any other accepted one keeps every column that no rule forces |
| AppCatalogue.ValidationRefuses | app/access_modes.py:191-216 | exactly what validation refuses |
| AppCatalogue.UnknownNamesFallBack | app/access_modes.py:51-56 | names of no list: the old access mode is mapped, all others fall back |
| AppCatalogue.CreatedExactlyWhenOk | app/access_modes.py:191-216 | a row without device control satisfies the rules if and only if some request creates exactly it |
| AppCatalogue.AuthStaysCoherent | app/services.py:350-360 | whatever is sent, a mode other than single sign-on ends with trusted headers |
| AppCatalogue.UpdateKeepsOk | app/services.py:368-397 | every accepted partial update of a coherent application is coherent |
| AppCatalogue.CoherentUpdateIsStored | app/services.py:368-397 | when what is sent fits together with what is stored, the update is accepted and stores exactly that |
| AppCatalogue.UpdateColumns | app/services.py:368-397 | otherwise addresses, credential mode and a known access mode are stored as sent or stay, and the password cache only yields to its rule |
| AppCatalogue.UpdateFlagColumns | app/services.py:294-312 | TLS verification and ActiveSync are stored as sent or stay wherever the mode allows them |
| AppCatalogue.UpdateAuthColumns | app/services.py:350-360 | a known authentication mode is stored as sent or stays, and under single sign-on so is the bridge |
| AppCatalogue.AcceptedExactly | app/services.py:368-397 | an update is accepted if and only if mode and addresses pass validation and no mandatory column would be null |
| AppCatalogue.EmptyUpdateIsIdentity | app/services.py:368-397 | sending nothing changes nothing |
| AppCatalogue.UpdateTwice | app/services.py:368-397 | sending an update twice is sending it once |
| AppCatalogue.ReachableAppsAreOk | app/services.py:233-397 | over every run of creates, updates and deletes all applications are coherent |
| Healthcheck.CounterRoundTrip | app/healthcheck.py:88-100 | a written counter is read back |
| Healthcheck.SettingIsRead | app/healthcheck.py:72-77 | a printed number is read back as the limit |
| Healthcheck.SignsAreRead | app/healthcheck.py:72-77 | a printed number with a sign in front is read with that sign |
| Healthcheck.UnderscoreIsRead | app/healthcheck.py:72-77 | two digit groups joined by an underscore are read as one number |
| Healthcheck.OtherTextIsNoNumber | app/healthcheck.py:72-77 | text with any character besides digits, underscores and a leading sign is no number |
| Healthcheck.NegativesAreZero | app/healthcheck.py:72-92 | a negative limit or counter counts as zero, as do a missing and an unreadable counter file |
| Healthcheck.SixByDefault | app/healthcheck.py:72-77 | without a readable setting the limit is six |
| Healthcheck.DisabledExactly | app/healthcheck.py:208-230 | no probe ever gives up if and only if the setting is a number that is not positive; an unset, blank or malformed one leaves the restart on |
| Healthcheck.ParentPidForAnyName | app/healthcheck.py:114-120 | the parent is recovered for every process name, with blanks and brackets |
| Healthcheck.FindTargetPids | app/healthcheck.py:123-148 | in ascending order, exactly the readable children of PID 1 that run the server, never PID 1 or the probe |
| Healthcheck.TargetIsChildOfInit | app/healthcheck.py:123-148 | the entry of a process is a target if and only if it is neither PID 1 nor the probe, PID 1 is its parent and its command line mentions the server |
| Healthcheck.Container.WriteFailures | app/healthcheck.py:95-100 | truncate, then write, with a refusal possible at both |
| Healthcheck.Container.RestartFrozenApp | app/healthcheck.py:165-205 | dumps go to every target before any kill; a probe killed on the way has sent a prefix of the signals; those reported are exactly those killed |
| Healthcheck.Container.CheckHealth | app/healthcheck.py:208-230 | the whole probe with a kill at any point, the restart included: state file, outcome, exit code, and signals only when it gives up |
| Healthcheck.StreakIsInARow | app/healthcheck.py:208-230 | the streak is at least k if and only if the last k events are probes without success |
| Healthcheck.SinceEmptiedCounts | app/healthcheck.py:95-100 | the number of counter writes still in the file is that of the counted probes after which nothing emptied it |
| Healthcheck.CounterIsSinceEmptied | app/healthcheck.py:88-100 | over every history the counter is exactly that number |
| Healthcheck.CounterFollowsStreak | app/healthcheck.py:88-100 | over every history the counter is at most the streak of unsuccessful probes plus what the file counted when it began, with equality if and only if no probe of the streak was killed before or inside its write or had it refused |
| Healthcheck.LeftoverIsRefusedReset | app/healthcheck.py:216-218 | a streak begins at zero unless the success before it found its reset refused at the open |
| Healthcheck.ResetsKeepCounterExact | app/healthcheck.py:208-230 | when no reset is refused at the open, the counter equals the streak if and only if every probe of it was counted |
| Healthcheck.GivesUpOnlyAfterStreak | app/healthcheck.py:213-230 | for every limit and next probe, giving up means that many probes in a row without success, if and only if the file counts no more than the streak; so always after a streak that began at zero |
| Healthcheck.GivesUpExactly | app/healthcheck.py:221-230 | over every history, a probe gives up if and only if it fails to the end, is counted, and the writes in the file reach an enabled limit; it logs this as new exactly when they equal it |
| Healthcheck.OutcomesExactly | app/healthcheck.py:213-230 | over every history, when a probe is killed, healthy, untracked, unhealthy or gives up, told from its run and the writes in the file; exit code 0 exactly when it finishes on an answering server, 1 exactly when on a failing one |
| Healthcheck.RefusedResetGivesUpEarly | app/healthcheck.py:216-218 | after a refused reset one failure can give up with a limit of two |
| Healthcheck.KilledProbesAreForgotten | app/healthcheck.py:95-100 | a kill inside the write forgets the streak, a kill before it is not counted |

## Left out

- Lower: `PyText.Lower` folds ASCII letters only, where `str.lower` folds all of Unicode.
- Numerals: `int` also reads other decimal digits than ASCII and refuses more than 4300 digits; the models read ASCII digits of any number.
- Backup stamps: their text and the calendar; a stamp is a number of seconds. A negative keep count, directories and a crash inside gzip are not modelled.
- SQLite lock: the cache of serialised classes; the standard driver, which releases the GIL while it closes; every close is taken to need both mutexes.
- IPv6 text, scope identifiers and netmask spellings beyond IPv4: what IPv6 text denotes is a parameter. The rule for IPv4-mapped addresses is that of Python 3.13 and later.
- ACME: signatures, keys, CSR and account headers; a failing write of the second PEM file; redirects of the unsigned directory and nonce requests. File-system refusals are parameters.
- OAuth configuration: the fallback engine of the patterns has a wider whitespace class than RE2; cookie-domain computation and decryption are given.
- Encryption: connections of other processes during the swap, key normalisation, a crash between the replacement and the checks after it (the disk is that of a finished run), and the fidelity of the export itself, which is an assumption.
- Versions: the parser of version text; pre, post, development and local parts are one rank.
- Inventory: the order in which npm packages are listed, lockfile JSON, HTTP, the refresh throttle, a failing commit after the refresh.
- Runtime secrets: the rotation of the break-glass secret from the administration page, which this model's caches do not follow, and the OIDC resolver.
- Realms: fields that carry no rule, the synchronisation account, requests that run concurrently, exports, and the socket check of a port.
- Catalogue: machine-to-machine flags, session forgetting, other columns; the URL parser is a parameter.
- Health probe: the HTTP request, waiting and logging; a signal is recorded when it is attempted.
- Certificate-domain reconciliation, mTLS clients, application deletion, the health score, routes and HTML: same shape as what is proved, or plumbing.
