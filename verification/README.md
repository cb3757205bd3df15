# Uniproxy: a verified model

Uniproxy is a proxy between local TCP connections and remote TLS peers that authenticate each other
by certificate. This project models the parts of it that carry logic of their own and proves what
they keep over whole runs. Sockets, clocks, threads and files appear as data and as events that the
environment chooses.

| file | part of the program |
|---|---|
| `Session.dfy`, `SessionRuns.dfy`, `SessionSteps.dfy`, `LocalHosts.dfy` | one session of a local port: completion handlers over the local sockets, two shared buffers and the outstanding operations |
| `Tlv.dfy`, `Nmea.dfy`, `Pghp2.dfy`, `Pghp2Proofs.dfy`, `Logon.dfy`, `LogonRoundTrip.dfy` | the logon codec: typed fields, TLV elements (ITU-T X.690), hexadecimal text, checksummed sentences, and back |
| `Reconfig.dfy`, `ReconfigProofs.dfy`, `ReconfigAssertion.dfy`, `ProxyGlobals.dfy` | editing the running hosts into a new configuration |
| `Certificates.dfy`, `Gossip.dfy`, `Activation.dfy`, `ActivationRuns.dfy` | the certificate store, its spreading between peers, and the timed permission list |
| `DataFlows.dfy`, `ProxyLogs.dfy`, `ProviderQueues.dfy`, `Reaper.dfy` | the one-minute byte counter, the polled log, the bounded provider queue, and the timer that clears away ended sessions |
| `Bytes.dfy` | bytes and a few facts about sequences |

Stateful parts come in two layers. Pure step functions say what one handler, one locked block or one
loop does to the state, and lemmas about runs of steps state what is promised. Beside them stand
classes with the program's own loops over its own fields; each of their methods is proved to do
exactly the step. Where a state records more than the program does (streams sent, totals, times of
past events), those fields are only written.

Some results differ from what the program's documentation or its shape suggests. The code was
followed.

- `m_write_count` is not initialised (src/localclient.cpp:52-60), so it counts the outstanding writes
  only once the first remote chunk has arrived, or if it happened to start at 0: `SessionRuns.FanOutExact`.
  The arming of reads does not depend on it before then.
- With more than one local connection the outgoing bytes can be wrong, as the program's own remark at
  src/localclient.cpp:309 expects: `SessionRuns.OutgoingIntactIff`.
- `BuildInt` clears the sign bit while it trims, so integers from -2^23 to -1 arrive 2^23 too large:
  `Tlv.IntReadBack`, `LogonRoundTrip.RequestUnchangedIff`.
- The header documents 1 to 9 sentences (libs/gatehouse/pghpnmeamsg.h:337). In the code the payload
  survives up to 217 sentences, because the character that numbers sentence 218 is a line feed, and
  the number of sentences survives up to 79, because a `char` is signed: `Pghp2Proofs.PayloadIff`,
  `Pghp2Proofs.RoundTripIff`.
- The size check of `ParseString` adds offset and length in 32 bits, so it lets a length close to 2^32
  through and the loop reads past the end of the buffer: `Tlv.StringOverrunIff`.
- The provider's reader stores a `char*`, so a chunk with a NUL byte is queued only up to it:
  `ProviderQueues.StoredWhole`.
- The assertion that relies on `unpopulate_json` can fail for a configuration that repeats a port.
  `ReconfigAssertion.AssertionIff` says exactly when it holds whatever is running, for every
  configuration: the host that an entry creates must agree with each later entry for its port, as far
  as populating gets before remotes that do not load stop it; and the host that the last entry for a
  port keeps must agree with each earlier one. The first half fails even for the same entry given
  twice, if its plugin type is unknown (`ReconfigAssertion.UnknownTypeTrips`) or one of its locals
  cannot be loaded (`ReconfigAssertion.PartialLocalsTrips`); `ReconfigAssertion.EarlierEntryTrips`
  shows how the second half fails.
- A plugin type that nobody registered makes its host restart with every upload of the same
  configuration: `ReconfigProofs.ReappliedIff`.
- A "required" port is not required by the code (src/cppcms_util.h:63-85): it is 0 when missing. Every
  upload then stops the host and creates it anew: `ReconfigProofs.ZeroPortStopped`,
  `ReconfigProofs.ZeroPortCreated`.
- A deletion that asks for a reload leaves the cached certificate names stale until the reload comes,
  exactly if the name was in the file: `Certificates.DeleteCachedIff`.

## Model

| member | source | states |
|---|---|---|
| Session.StepKeeps | src/localclient.cpp:192-388 | every completion, in any order, keeps the session invariant: bounded distinct sockets, one fan-out at a time, exact streams per socket, one operation per local socket |
| SessionSteps.EndsIff | src/localclient.cpp:192-388 | in every reachable state a session ends if and only if the event is a failed handshake, a failed remote read or write, an expired timeout without auto-reconnect, or a failed local read or write with no other socket listed |
| SessionSteps.SocketsExact | src/localclient.cpp:174-333 | in every reachable state a failed local operation takes exactly its socket off the list, a new connection below the limit is added at the end with its read armed, nothing else changes the list or its order, and one accept is always waiting |
| SessionSteps.NoReadArmedUnlisted | src/localclient.cpp:275-295 | no read is armed on a socket that is no longer listed |
| SessionRuns.FanOutExact | src/localclient.cpp:220-272 | in every state of every run after the handshake a remote read is armed exactly when no local write is outstanding, each listed socket was sent exactly the chunks since it joined but for one on its way, and the counter equals the outstanding writes if and only if a chunk has arrived or it started at 0 |
| SessionRuns.BufferNotReused | src/localclient.cpp:220-272 | no step stores into the remote buffer while a local write sends from it |
| SessionRuns.LocalSideExact | src/localclient.cpp:275-333 | in every reachable state the listed sockets are distinct, at most max(1, limit) of them, each with exactly one of an armed read or one outstanding remote write |
| SessionRuns.OneConnectionOutgoing | src/localclient.cpp:192-217 | with a limit of one connection the bytes sent to the remote are the bytes read locally, in order, but for at most one chunk that waits untouched |
| SessionRuns.OutgoingIntactIff | src/localclient.cpp:298-319 | over all runs the outgoing stream stays a prefix of what was read if and only if the limit is at most one |
| SessionRuns.SecondSocketOverwrites | src/localclient.cpp:298-319 | the run in which a second local read overwrites bytes still being sent |
| Session.CountBeforeFirstChunk | src/localclient.cpp:52-60 | until the first remote chunk nobody changes the counter |
| LocalHosts.LocalHost.HandleLocalRead | src/localclient.cpp:192-217 | the handler does exactly the step: forward the bytes, or drop the socket and end with the last one |
| LocalHosts.LocalHost.HandleLocalWrite | src/localclient.cpp:220-242 | the handler does exactly the step: count down, drop a failed socket, re-arm at 0 |
| LocalHosts.LocalHost.HandleRemoteRead | src/localclient.cpp:245-272 | the handler with its loop does exactly the step: one write of the chunk for every listed socket |
| LocalHosts.LocalHost.HandleRemoteWrite | src/localclient.cpp:275-295 | the handler with its search loop does exactly the step: re-arm the originating socket if it is still listed |
| LocalHosts.LocalHost.HandleAccept | src/localclient.cpp:298-333 | the handler does exactly the step: list the socket below the limit, and accept again while any socket is listed |
| LocalHosts.LocalHost.HandleHandshake | src/localclient.cpp:372-388 | the handler does exactly the step: arm the first remote read, or end |
| LocalHosts.LocalHost.RemoveSocket | src/localclient.cpp:174-189 | removes the socket if it is listed, and nothing otherwise |
| LocalHosts.LocalHost.CheckDeadline | src/localclient.cpp:338-369 | an expired read timeout ends the session unless it reconnects by itself; an aborted wait and one that has not expired change nothing |
| Tlv.BuildInt | libs/gatehouse/pghpinternalbase.cpp:136-170 | the shifting loops emit type, length and the octets of the integer the receiver will see, most significant first |
| Tlv.BuildString | libs/gatehouse/pghpinternalbase.cpp:195-228 | the loop appends type, length octets and the bytes |
| Tlv.IntContentsMinimal | libs/gatehouse/pghpinternalbase.cpp:136-170 | the contents octets obey the minimality rule of section 8.3.2 of ITU-T X.690 for every 32-bit integer |
| Tlv.IntContentsValue | libs/gatehouse/pghpinternalbase.cpp:136-170 | and read as two's complement they are n, or n + 2^23 for n from -2^23 to -1 |
| Tlv.IntReadBack | libs/gatehouse/pghpinternalbase.cpp:320-362 | parsing a built integer between any prefix and suffix yields that value and stops at the suffix; it is n if and only if n is not in [-2^23, -1] |
| Tlv.StringReadBack | libs/gatehouse/pghpinternalbase.cpp:287-317 | parsing a built string between any prefix and suffix appends exactly it and stops at the suffix |
| Tlv.LengthReadBack | libs/gatehouse/pghpinternalbase.cpp:195-284 | length octets in short and long form (section 8.1.3 of ITU-T X.690) give the length back, for every 16-bit length |
| Tlv.LengthShortest | libs/gatehouse/pghpinternalbase.cpp:195-213 | no other octets that the parser reads as the length are fewer |
| Tlv.HeaderReadBack | libs/gatehouse/pghpinternalbase.cpp:189-240 | likewise type and length together |
| Tlv.ParsedString | libs/gatehouse/pghpinternalbase.cpp:287-317 | likewise for strings; the one way in which a read goes out of range is told apart as an overrun |
| Tlv.ParsedInt | libs/gatehouse/pghpinternalbase.cpp:320-362 | likewise for integers, for which every read is in range |
| Tlv.StringOverrunIff | libs/gatehouse/pghpinternalbase.cpp:305-314 | a string is read past the end of the buffer if and only if position and announced length reach 2^32 together, where the 32-bit sum of the size check wraps |
| Tlv.StringOverruns | libs/gatehouse/pghpinternalbase.cpp:305-314 | the shortest such input: a length of 2^32 - 1 in four octets |
| Tlv.LongFormReadBack | libs/gatehouse/pghpinternalbase.cpp:251-279 | a long form of one to four octets, minimal or not, between any prefix and suffix gives the number it spells |
| Tlv.ParsedLength | libs/gatehouse/pghpinternalbase.cpp:243-284 | on any buffer up to 32767 bytes a success advances the offset and never passes the end, a failure leaves it where it was; long forms of one to four octets have their 32-bit value |
| Tlv.ParseLength | libs/gatehouse/pghpinternalbase.cpp:243-284 | the parser with its accumulating loop is that function |
| Tlv.ParseString | libs/gatehouse/pghpinternalbase.cpp:287-317 | the parser with its copying loop is that function |
| Tlv.ParseInt | libs/gatehouse/pghpinternalbase.cpp:320-362 | the parser with its sign-extending loop is that function |
| Nmea.Byte2Ascii | libs/gatehouse/pghpinternalbase.cpp:416-424 | appends two upper-case hexadecimal digits for every byte |
| Nmea.Ascii2Byte | libs/gatehouse/pghpinternalbase.cpp:405-414 | appends one byte for every two characters |
| Nmea.UnhexHex | libs/gatehouse/pghpinternalbase.cpp:405-424 | decoding the hexadecimal text of any bytes gives the bytes |
| Nmea.HexDigits | libs/gatehouse/pghpinternalbase.cpp:416-424 | digits are written in upper case |
| Nmea.HexValues | libs/gatehouse/pghpinternalbase.cpp:405-414 | and read in either case, and no other character is a digit |
| Nmea.HexClean | libs/gatehouse/pghpinternalbase.cpp:416-424 | hexadecimal text holds no character that the sentence syntax reserves |
| Nmea.CalcNmeaCheckSum | libs/gatehouse/pghputils.cpp:40-58 | the loop is the exclusive or of everything after a leading '$' or '!' and before the first '*' |
| Nmea.XorExact | libs/gatehouse/pghputils.cpp:53-57 | bit k of the exclusive or of two bytes is set if and only if bit k of the two differs |
| Nmea.FoldParity | libs/gatehouse/pghputils.cpp:53-57 | bit k of the checksum is set if and only if an odd number of the bytes summed have bit k set |
| Nmea.CheckSumExact | libs/gatehouse/pghputils.cpp:40-58 | the bytes summed are those before the first star, without the first one if it is '$' or '!' |
| Nmea.FoldDetects | libs/gatehouse/pghputils.cpp:40-58 | replacing any one byte changes that exclusive or |
| Nmea.HexByteInjective | libs/gatehouse/pghputils.cpp:61-66 | different checksums are written differently |
| Nmea.VerifiedIff | libs/gatehouse/pghpnmeamsg.cpp:103-121 | a line whose first '*' ends its body is accepted if and only if the two characters after it are the body's checksum |
| Nmea.SentenceVerified | libs/gatehouse/pghpnmeamsg.cpp:103-121 | every sentence of a clean chunk whose counter characters are not reserved is accepted |
| Nmea.SentenceText | libs/gatehouse/pghp2.cpp:31-56 | the text of a sentence, with the checksum of all between '$' and '*' |
| Nmea.CountersRead | libs/gatehouse/pghpnmeamsg.h:158-185 | no counter up to 217 has a reserved character, 218 is a line feed, none reads back above 79 and up to 79 all read back as they are |
| Nmea.GetString | libs/gatehouse/pghpnmeamsg.h:217-239 | the scanner returns the field up to the next ',' , '*' or CR and the offset after it |
| Pghp2.Segmentation | libs/gatehouse/pghpnmeamsg.cpp:148-181 | a payload is cut into ceil(length / 512) chunks of 1 to 512 bytes that concatenate to it |
| Pghp2.Message.EncodePart | libs/gatehouse/pghp2.cpp:31-56 | appends one numbered sentence with its checksum |
| Pghp2.Message.Encode | libs/gatehouse/pghpnmeamsg.cpp:148-181 | the loops append the sentences numbered 1 to N and set the total and the identifier |
| Pghp2.Message.Decode | libs/gatehouse/pghp2.cpp:58-114 | the loop accepts exactly what the line-by-line reassembly accepts, and leaves all members alone when it refuses |
| Pghp2Proofs.RoundTrip | libs/gatehouse/pghp2.cpp:31-114 | decoding an encoded clean payload of up to 217 sentences gives payload and raw text, and total, last number and identifier as their characters are read |
| Pghp2Proofs.SentenceExact | libs/gatehouse/pghpnmeamsg.cpp:148-181 | sentence i of N carries total N, number i + 1, bytes 512 i to 512 (i + 1) of the payload and the identifier, which is 0 for several sentences without one |
| Pghp2Proofs.WrongHeaderRefused | libs/gatehouse/pghp2.cpp:58-114 | a line that does not start with the header is refused, whatever its checksum |
| Pghp2Proofs.RestIgnored | libs/gatehouse/pghp2.cpp:58-114 | what follows the last line feed is ignored |
| Pghp2Proofs.RoundTripIff | libs/gatehouse/pghp2.cpp:31-114 | for every payload, payload and total are both recovered if and only if it is clean and has at most 79 sentences |
| Pghp2Proofs.PayloadIff | libs/gatehouse/pghp2.cpp:31-114 | every payload is recovered if and only if it is free of comma, star, CR and LF and has at most 217 sentences; a longer clean one is refused |
| Pghp2Proofs.DamageDetected | libs/gatehouse/pghpnmeamsg.cpp:103-121 | in any message of up to 217 sentences, one byte between '$' and '*' of any sentence, replaced by anything but '*', makes decoding fail |
| Logon.FieldsReadBack | libs/gatehouse/pghpinternalbase.cpp:33-134 | any list of named fields, decoded into members of the same kinds, arrives in order and ends at the suffix |
| Logon.MessageReadBack | libs/gatehouse/pghpinternalbase.cpp:33-134 | likewise for a whole message with its type header, to its last byte |
| Logon.NothingDecoded | libs/gatehouse/pghpinternalbase.cpp:93-134 | where nothing is left to parse, every member keeps what it holds |
| Logon.LogonRequest.Encode | libs/gatehouse/pghplogonrequest.cpp:67-84 | appends the text of the eight fields and leaves the name in lower case |
| Logon.LogonRequest.Decode | libs/gatehouse/pghplogonrequest.cpp:39-64 | sets the eight members as reading the fields in order into them does |
| Logon.RequestWire | libs/gatehouse/pghplogonrequest.cpp:67-84 | the bytes of a request: type 1, then the eight members in this order, each under its name |
| Logon.LowerExact | libs/gatehouse/pghplogonrequest.cpp:67-72 | lower-casing leaves no upper-case letter and changes nothing else |
| Logon.LogonReply.Encode | libs/gatehouse/pghplogonreply.cpp:54-65 | appends the text of the three fields |
| Logon.LogonReply.Decode | libs/gatehouse/pghplogonreply.cpp:36-52 | sets the three members, the result starting from 0 |
| Logon.ReplyWire | libs/gatehouse/pghplogonreply.cpp:54-65 | the bytes of a reply: type 2, then the three members, each under its name |
| LogonRoundTrip.FieldsSurvive | libs/gatehouse/pghp2.cpp:31-114 | any typed message of up to 32767 bytes passes through TLV, hexadecimal text and sentences and back with every field |
| LogonRoundTrip.RequestSurvives | libs/gatehouse/pghplogonrequest.cpp:39-84 | through all layers into a fresh object every string of a logon request of up to 32767 bytes arrives, the name in lower case, and every integer as `BuildInt` sends it |
| LogonRoundTrip.RequestUnchangedIff | libs/gatehouse/pghplogonrequest.cpp:39-84 | for such requests nothing but the case of the name changes if and only if no integer is in [-2^23, -1] |
| LogonRoundTrip.ReplySurvives | libs/gatehouse/pghplogonreply.cpp:36-65 | the same two statements for the logon reply |
| LogonRoundTrip.Exchange | libs/gatehouse/pghplogonrequest.cpp:39-84 | the objects themselves: encode, segment, reassemble, decode into a fresh request |
| Reconfig.SameIff | src/applutil.cpp:904-907 | two remote endpoints are the same if and only if they differ at most in the port |
| Reconfig.SameLocalsIff | src/proxy_global.cpp:320-337 | the locals are unchanged if and only if the configured list, all items loaded, is the running one |
| Reconfig.ErasedExactly | src/remoteclient.cpp:517-529 | erasing one by one the remotes that are not wanted erases exactly those, in spite of duplicates |
| Reconfig.RemotesByDifference | src/remoteclient.cpp:507-529 | for all lists, adding and removing the differences leaves the kept remotes, then the new ones, and so the wanted set under an equality that ignores the port |
| Reconfig.StayingIff | src/remoteclient.cpp:755-772 | a session stays if and only if its endpoint is still wanted or was never configured |
| Reconfig.StayingExact | src/remoteclient.cpp:755-772 | the sessions left are exactly those whose endpoint was not removed, in order |
| Reconfig.CreatedExact | src/proxy_global.cpp:539-582 | an entry creates a host if and only if at least one remote and one local can be loaded, with those that can and the standard plugin for an unknown type |
| Reconfig.LoadedExact | src/proxy_global.cpp:545-561 | the items used are exactly those that can be loaded, in order |
| ReconfigProofs.UnpopulatedExact | src/proxy_global.cpp:387-425 | for every configuration that does not fail, repeated ports included: exactly the hosts that the last entry for their port agrees with stay, in order, each without the sessions of remotes that some entry for its port does not want |
| ReconfigProofs.AssertionHolds | src/proxy_global.cpp:515-534 | for every running state and every configuration whose entries agree wherever they share a port, well-formed or not, the assertion "Host should have been deleted" never fails |
| ReconfigProofs.ReconfiguredExactly | src/proxy_global.cpp:515-584 | for every running state and every well-formed configuration, both functions succeed and leave exactly the configured ports, each host with the configured plugin, locals and set of remotes; kept hosts come first and ports stay distinct |
| ReconfigProofs.ReconfiguredPlainly | src/proxy_global.cpp:515-584 | the same said of the fields: each entry has its host and each host its entry, with the port, the plugin if registered, the locals item by item, and the remotes equal up to their ports both ways |
| ReconfigProofs.SessionsSurvive | src/proxy_global.cpp:410-417 | in a well-formed configuration, a host whose plugin and locals are unchanged keeps its sessions, but for those of removed remotes |
| ReconfigProofs.ReappliedIff | src/proxy_global.cpp:285-350 | a well-formed configuration uploaded again keeps every host if and only if all plugin types in it are registered, and then changes nothing |
| ReconfigAssertion.AssertionIff | src/proxy_global.cpp:515-534 | for every configuration: the assertion holds for all possible running hosts if and only if the host that an entry creates agrees with each later entry for its port that populating reaches, and the host that the last entry for a port keeps agrees with each earlier one that it reaches |
| ReconfigAssertion.AlwaysPossible | src/proxy_global.cpp:515-584 | possible hosts, with a registered plugin and at least one local, stay possible through every reconfiguration |
| ReconfigAssertion.CreatedTrips | src/proxy_global.cpp:527-529 | with nothing running, any entry that creates a host and a later one that does not agree with it trip the assertion |
| ReconfigAssertion.EarlierEntryTrips | src/proxy_global.cpp:527-529 | any two entries for one port that differ in plugin or locals trip it, with a possible host running that the second keeps |
| ReconfigAssertion.UnknownTypeTrips | src/proxy_global.cpp:564-575 | any entry of unknown plugin type that creates a host, given twice, trips it with nothing running |
| ReconfigAssertion.PartialLocalsTrips | src/proxy_global.cpp:545-555 | so does any entry given twice of whose locals some load and some do not |
| ReconfigProofs.ZeroPortStopped | src/proxy_global.cpp:291-292 | a host on port 0 is stopped by every upload |
| ReconfigProofs.ZeroPortCreated | src/proxy_global.cpp:519-543 | an entry of port 0 matches no running host and is compared with none, so it creates another |
| ProxyGlobals.IsSame | src/proxy_global.cpp:285-350 | the comparison with its loops finds the port, the differences of remotes both ways, changed locals and a changed plugin, or fails on remotes that cannot be loaded |
| ProxyGlobals.RemoteProxyHost.AddRemotes | src/remoteclient.cpp:507-514 | appends in place |
| ProxyGlobals.RemoteProxyHost.RemoveRemotes | src/remoteclient.cpp:517-529 | erases in place the first element like each, if there is one |
| ProxyGlobals.RemoteProxyHost.RemoveAny | src/remoteclient.cpp:755-772 | the erasing loop keeps exactly the sessions of other endpoints, in order |
| ProxyGlobals.ProxyGlobal.Unpopulate | src/proxy_global.cpp:387-425 | the loop over the host objects erases and trims in place as specified, or fails as specified |
| ProxyGlobals.ProxyGlobal.Update | src/proxy_global.cpp:519-537 | the loop over the host objects completes those an entry speaks about, or fails as specified |
| ProxyGlobals.ProxyGlobal.Populate | src/proxy_global.cpp:515-584 | entry after entry, as specified, with new host objects for ports not found |
| ProxyGlobals.ProxyGlobal.Upload | src/main.cpp:327-333 | the two in this order are the reconfiguration whose result is proved |
| Certificates.RunKeeps | src/proxy_global.cpp:905-974 | over every run of exchanges, merges, deletions and reloads no two certificates share a name, and the cached names are those of the file unless a reload is pending |
| Certificates.ExchangeExact | src/proxy_global.cpp:926-982 | an accepted exchange leaves exactly the received certificate under its name and the others in order; a refused one changes nothing |
| Certificates.DeleteExact | src/main.cpp:186-203 | a deletion leaves exactly the certificates with another name, in order, whether or not a client uses the deleted one, and asks for a reload if and only if one does; without a file it changes nothing |
| Certificates.MergeExact | src/proxy_global.cpp:1126-1163 | a merge keeps the own certificates in place, appends served ones under new names until all served names are held, and renews the names; if it appends nothing it changes nothing |
| Certificates.ReloadExact | src/proxy_global.cpp:905-923 | a reload renews the names from the file, keeps the file, and is over |
| Certificates.MergeCachedIff | src/proxy_global.cpp:1126-1163 | after a merge the cache matches the file if and only if it matched before or a name not held was served |
| Certificates.AddsIff | src/proxy_global.cpp:1138-1158 | a merge adds something if and only if a name not held is served |
| Certificates.DeleteCachedIff | src/main.cpp:186-203 | after a deletion a matching cache still matches if and only if there is no file, no client uses the certificate, or the name was not in the file |
| Certificates.StaleAfterDelete | src/main.cpp:186-203 | once stale in this way, the cache stays stale with every merge that adds nothing |
| Certificates.MergedGrows | src/proxy_global.cpp:1138-1158 | a merge keeps the own certificates in place and appends only served ones under names not held |
| Certificates.MergedNames | src/proxy_global.cpp:1138-1158 | the names held afterwards are exactly the own and the served ones |
| Certificates.OthersExact | src/proxy_global.cpp:956-968 | what is left without a name is everything with another name, in order, and nothing else |
| Certificates.CertificateStore.Exchange | src/proxy_global.cpp:926-982 | the method with its erasing loop does exactly the step and returns the stored name, or nothing |
| Certificates.CertificateStore.Merge | src/proxy_global.cpp:1126-1163 | the nested loops do exactly the step and report the added names |
| Certificates.CertificateStore.Delete | src/main.cpp:186-203 | the deletion does exactly the step, and asks for a reload instead of renewing the names if a client uses the certificate |
| Certificates.DeleteName | src/applutil.cpp:370-394 | the loop that restarts its search after each hit terminates and equals the filter |
| Certificates.CertificateStore.Restart | src/proxy_global.cpp:905-923 | a reload renews the names |
| Certificates.CertificateStore.LoadNames | src/proxy_global.cpp:905-923 | the cache becomes the names of the file |
| Gossip.StoresGrow | src/proxy_global.cpp:1126-1163 | for any peers and any pulls, served from whatever earlier state, each store is extended at its end and stays free of repeated names |
| Gossip.OwnKept | src/proxy_global.cpp:1138-1150 | a peer keeps its own certificate for every name it already has |
| Gossip.FromTheStart | src/proxy_global.cpp:1126-1163 | every certificate a peer holds was there at the start, at a peer its news came from |
| Gossip.NamesAreHeard | src/proxy_global.cpp:1126-1163 | a peer holds a name if and only if someone it has heard of, directly or through others, started with it |
| Gossip.Converged | src/proxy_global.cpp:1126-1163 | once every peer has pulled from every other, in any order and from any earlier states, all hold exactly the union of the names |
| Gossip.ReachedIff | src/proxy_global.cpp:1126-1163 | a name that only one peer started with has reached another if and only if news travelled from the one to the other |
| Activation.StepKeeps | src/proxy_global.cpp:1231-1351 | every operation and every stage of a connection keeps the invariant of the permission list |
| Activation.EachGrantUsedOnce | src/proxy_global.cpp:1231-1244 | over every run listed names are distinct, and completed exchanges for a name plus one still open never outnumber the times it was put on the list |
| Activation.StoredOnlyIfPermitted | src/proxy_global.cpp:1264-1280 | over every run a certificate is stored only if its name was added and unexpired when the connection was accepted |
| Activation.FileChangesArePermitted | src/proxy_global.cpp:1264-1280 | a step of the activation thread that changes the certificate file puts one certificate there, under a name permitted at the accept, and keeps the others |
| ActivationRuns.StoredMeansAdded | src/proxy_global.cpp:1231-1280 | over every run, if a certificate is stored for a connection accepted at time a, an event of the run added its name at a time t with some timeout such that t <= a < t + timeout |
| ActivationRuns.EntriesAreEvents | src/proxy_global.cpp:1231-1244 | after every run each listed entry expires at the time plus the timeout of an event that added its name |
| ActivationRuns.NoMoreThanAdded | src/proxy_global.cpp:1231-1304 | over every run the exchanges completed for a name, and one still open, do not outnumber the events that add it |
| ActivationRuns.ListExact | src/proxy_global.cpp:1231-1351 | what is on the list after each event: only a removal, a completed exchange and time take an entry off, only an addition of a name not permitted puts one on |
| ActivationRuns.AcceptExact | src/proxy_global.cpp:1264-1277 | a connection is served with exactly the names permitted when it is accepted |
| ActivationRuns.ServeExact | src/proxy_global.cpp:926-982 | a single certificate received under one of these names is stored, and nothing else |
| ActivationRuns.ConnectionExact | src/proxy_global.cpp:1247-1304 | a connection is over with its answer or an exception, and only serving it and what happens elsewhere touch the certificates |
| Activation.ActivateHost.Cleanup | src/proxy_global.cpp:1338-1351 | the erasing loop leaves exactly the unexpired entries |
| Activation.ActivateHost.Add | src/proxy_global.cpp:1231-1244 | does exactly the step: a name that is listed and unexpired is not added again |
| Activation.ActivateHost.Remove | src/proxy_global.cpp:1306-1320 | does exactly the step and says whether the name was there |
| Activation.ActivateHost.IsInList | src/proxy_global.cpp:1323-1335 | says whether the name is permitted and until when |
| Activation.ActivateHost.AcceptConnection | src/proxy_global.cpp:1264-1277 | the names permitted at this moment, and no others, are remembered for the connection |
| Activation.ActivateHost.ServeConnection | src/proxy_global.cpp:1278-1280 | stores the received certificate exactly if its name is among them |
| Activation.ActivateHost.AnswerConnection | src/proxy_global.cpp:1280-1297 | a completed exchange takes its name off the list |
| DataFlows.SlotsAreTheMinute | src/applutil.cpp:689-700 | the sixty slots together hold exactly what was logged in the last minute |
| DataFlows.DataFlow.Cleanup | src/applutil.cpp:657-676 | empties exactly the slots whose second has come round, and its loop terminates |
| DataFlows.DataFlow.Add | src/applutil.cpp:679-687 | the ring goes on agreeing with the log that has the new entry |
| DataFlows.DataFlow.Get | src/applutil.cpp:689-700 | at second t the answer is the sum of all counts with stamp in (t - 60, t], modulo 2^64 |
| DataFlows.DataFlow.Clear | src/applutil.cpp:647-654 | forgets everything, although the stamp stays |
| DataFlows.Replay | src/applutil.cpp:635-700 | every history of adds, gets and clears under a clock that never runs back is answered as the plain log answers |
| ProviderQueues.QueueBounded | src/providerclient.cpp:283-305 | over every interleaving the counter covers the queued bytes, so its subtraction never wraps, and at most the capacity + 1023 bytes are queued |
| ProviderQueues.TakenInOrder | src/providerclient.cpp:190-214 | what the writer takes is an in-order subsequence of what was read; every other chunk was dropped exactly once and was older than all that is queued |
| ProviderQueues.ChunksAreReads | src/providerclient.cpp:283-305 | the chunks accounted for are those the events of the run push, in order |
| ProviderQueues.PopExact | src/providerclient.cpp:194-201 | a pop takes the chunk at the front off the queue and leaves the counter; from an empty queue it takes nothing |
| ProviderQueues.NothingDropped | src/providerclient.cpp:283-305 | until more than the capacity has been read the writer gets every chunk, without a gap |
| ProviderQueues.StoredWhole | src/providerclient.cpp:302-302 | a chunk is queued whole if and only if it holds no NUL |
| ProviderQueues.DropKeeps | src/providerclient.cpp:292-296 | one eviction keeps the invariant and does not wrap |
| ProviderQueues.ProviderQueue.Push | src/providerclient.cpp:288-303 | the reader's block with its eviction loop does exactly the step |
| ProviderQueues.ProviderQueue.Pop | src/providerclient.cpp:194-201 | the writer's block does exactly the step |
| ProxyLogs.LogIsTheEnd | src/applutil.cpp:573-604 | over every interleaving of adds and polls the log is the last min(50, total) lines, contiguously numbered |
| ProxyLogs.PollsExact | src/main.cpp:106-119 | since its last reset a session received each line at most once, in order, with its text, and of the lines it looked up it misses exactly those that fifty newer lines had pushed out by then |
| ProxyLogs.LinesAreAdds | src/applutil.cpp:573-597 | the lines accounted for are the non-empty texts the events of the run add, in order |
| ProxyLogs.StampedHolds | src/applutil.cpp:596-596 | a line is the time, a colon and the text |
| ProxyLogs.PollExact | src/main.cpp:88-119 | a poll goes one by one from where the session stands to the last line there was when it began, and leaves the session there; a reset puts it back to the first line |
| ProxyLogs.LookupFinds | src/applutil.cpp:551-559 | on contiguous indices the search finds the line with the index if it is there |
| ProxyLogs.ProxyLog.Add | src/applutil.cpp:573-597 | does exactly the step: an empty line is ignored, the oldest ones make room |
| ProxyLogs.ProxyLog.Get | src/applutil.cpp:551-559 | the search is the look-up |
| ProxyLogs.ProxyLog.Index | src/main.cpp:88-96 | loading the page resets the session |
| ProxyLogs.ProxyLog.LoggerGet | src/main.cpp:106-119 | a poll, with anything added between its look-ups, is such a run; it sends what it recorded and goes on from the count it started with |
| Reaper.ErasedOnlyWhenOver | src/remoteclient.cpp:675-723 | over every run the sweep erased only sessions that ended 2 seconds before and were stopped more than 2 seconds before; all others are listed in the order of acceptance, unless a reconfiguration removed their endpoint |
| Reaper.GoneBySecondSweep | src/remoteclient.cpp:675-723 | no session outlives a second sweep that falls 2 seconds or more after its end |
| Reaper.GoneAfterTwoSweeps | src/remoteclient.cpp:675-723 | over every run a session whose thread has ended is not listed after the second sweep that falls 2 seconds or more after its end, whatever happens in between |
| Reaper.SweepExact | src/remoteclient.cpp:675-723 | a sweep takes exactly the sessions that ended 2 seconds before and were stopped more than 2 seconds before, keeps the others in order, stops those that ended 2 seconds before, and sets the timer 3 seconds later |
| Reaper.OthersExact | src/remoteclient.cpp:147-156 | what an accept, the end of a thread, a stop, a removal and a new timer do to each session |
| Reaper.SweepKeeps | src/remoteclient.cpp:691-715 | what one sweep does to a list in which no session is overdue |
| Reaper.RemoteHost.CheckDeadline | src/remoteclient.cpp:675-723 | the timer handler does exactly the step, and nothing when its wait was aborted or has not expired |
| Reaper.RemoteHost.Sweep | src/remoteclient.cpp:691-715 | the erasing loop equals the filter and accounts for every session |

## Left out

- Sockets, TLS, name resolution, timers, files and threads: events and parameters stand for them; a
  file that is written is taken to be written in full.
- LocalHosts.LocalHost.CheckDeadline: when the read timer expires, and the closing of the remote socket, are left to
  the environment, whose operations then complete with errors.
- Sessions across `auto_reconnect`: writes left over from one session can complete in the next; one
  session from `go_out` to its end is modelled.
- The lifetime of a local socket that was dropped from the list: a read that still completes for it is
  handled like any other, and its bytes are passed on, while the code reaches it through a raw pointer.
- Outgoing streams of more than one local connection, beyond the proof that they can break.
- The 16-bit parse offset beyond 32767 bytes.
- Tlv.ParsedLength: five to eight length octets shift by 32 bits or more, which C++ leaves undefined, so
  the result is "undefined" and nothing further is claimed; `long` is taken to have eight bytes, and
  an octet of 128 or more shifted to the top of 32 bits to keep its bit pattern.
- Tlv.ParsedString: after a read past the end of the buffer nothing further is claimed.
- `BuildDouble`, `ParseDouble` and dates: memory images of floating point numbers.
- An odd number of hexadecimal characters beyond what `Nmea.Ascii2Byte` states, and the member
  `m_iCheckSum`, which nothing reads back.
- The other NMEA sentence types, proxy filters and XML: they rest on the Boost tokenizer.
- The logon conversation (libs/gatehouse/pghpplugin.cpp): socket reads and a regular expression.
- JSON parsing: configurations start as values; a "hosts" entry that is not an array is the empty list.
- Clients in a reconfiguration: their `is_same` always answers false, so all of them are rebuilt.
- ProxyGlobals.ProxyGlobal.Upload: after a failed assertion the state of the hosts is not stated, because the caller
  then reloads the whole program (src/main.cpp:335-339).
- Certificates.ExchangeExact: certificates are opaque values with a common name; PEM text and X.509 are not modelled.
- The client side of an activation and the check of public certificates: they change none of this state.
- DataFlows.Replay: assumes a clock that does not run backwards and seconds that are not negative.
- ProxyLogs.PollsExact: the requests of one session follow each other, and the line index does not reach 2^31.
- Reaper.GoneBySecondSweep: stopping a session, which joins its threads, and one sweep take no time.
- ProviderQueues.TakenInOrder: plugins may rewrite a chunk after it was taken; what the socket then
  accepts is not part of it.
- The web interface, its status pages and the Windows firewall code.
