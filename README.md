# Campagnol rendezvous server and client helpers, in Dafny

Campagnol is a peer-to-peer VPN. Its nodes sit behind NATs, so they meet
through a rendezvous (RDV) server. The server keeps a registry of clients
indexed twice: by public (IP, port) and by VPN IP. It also keeps a table of
directed connection requests, one per ordered pair of clients. It answers
11-byte UDP messages: HELLO, PING, BYE, ASK_CONNECTION and CLOSE_CONNECTION
(the C server ignores datagrams of any other length; the Java server ignores
shorter ones and reads the first 11 bytes of longer ones).
The server exists in Java (`CampagnolServer.analyse`) and in C
(`handle_packet` with `peer.c` and `session.c`).

This project models:

- the wire codec of the 11-byte message (`wire.dfy`);
- the connection record and the client record (`connection.dfy`, `peer.dfy`);
- the server's tables and the decision table of the packet handler, as
  functions on values (`rendezvous.dfy`), with the invariants they keep
  (`rendezvous_lemmas.dfy`);
- the server object whose methods update the client and session tables in
  place, each proved against those functions (`server.dfy`);
- the growable string buffer of `strlib.c` (`strlib.dfy`);
- the INI reader of `config_io.c`: character reader, escapes, identifier and
  value scanners, and the `parser_read` filter (`config_io.dfy`);
- the option store of `config_parser.c`: set, get, remove, typed getters,
  `${name}` substitution and comment stripping (`config_parser.dfy`);
- the server's getopt-style command-line parser (`option_parser.dfy`);
- the client's broadcast/netmask computation, CIDR suffix check and numeric
  range checks (`configuration.dfy`);
- the client's packet FIFO, a ring buffer, run sequentially (`fifo.dfy`);
- the client's message initialiser, IP checksum and broadcast readdressing
  (`communication.dfy`);
- the `%` expansion of the TUN up/down command templates (`tun_args.dfy`).

Time is a parameter `now` in seconds. A client has timed out when
now - time > 5, and it is dead when now - time > 10. Sends are recorded as
an ordered list of outgoing messages.

## Model

| member | source | states |
|---|---|---|
| Wire.Tags | trunk/rdvserver/net/sourceforge/campagnol/MsgServStruct.java:31-44 | the fourteen message tags are the numbers 0 to 13 in declaration order, HELLO = 0 through CLOSE_CONNECTION = 13 |
| Wire.NewMsg | trunk/rdvserver/net/sourceforge/campagnol/MsgServStruct.java:63-74 | the four-argument constructor keeps type and port, and a null address becomes the all-zero EMPTY_IP |
| Wire.Low16 | trunk/rdvserver/net/sourceforge/campagnol/MsgServStruct.java:100 | the cast to short keeps the port modulo 2^16, as an unsigned 16-bit pattern |
| Wire.SignedShort | trunk/rdvserver/net/sourceforge/campagnol/MsgServStruct.java:80 | getShort reads two big-endian bytes as a signed value in [-32768, 32767] congruent to the unsigned pattern |
| Wire.ToShort | trunk/rdvserver/net/sourceforge/campagnol/MsgServStruct.java:100 | a port already in the signed-short range survives the cast unchanged |
| Wire.ToBytes | trunk/rdvserver/net/sourceforge/campagnol/MsgServStruct.java:96-105 | the encoding is exactly 11 bytes: the type, the port's low 16 bits big-endian, then ip1 and ip2 |
| Wire.FromBytes | trunk/rdvserver/net/sourceforge/campagnol/MsgServStruct.java:77-93 | decoding yields null exactly when fewer than 11 bytes arrive; otherwise type, ip1 and ip2 are bytes 0, 3-6 and 7-10 |
| Wire.Preformatted | trunk/rdvserver/net/sourceforge/campagnol/MsgServStruct.java:46-51 | each preformatted message is its tag followed by ten zero bytes |
| Wire.RoundTrip | trunk/rdvserver/net/sourceforge/campagnol/MsgServStruct.java:77-105 | decoding an encoding gives back type, ip1, ip2 and the port reduced to a signed short; a port in range comes back unchanged |
| Wire.DecodeEncode | trunk/rdvserver/net/sourceforge/campagnol/MsgServStruct.java:77-105 | re-encoding a decoded message reproduces the first 11 input bytes |
| Wire.TrailingBytesIgnored | trunk/rdvserver/net/sourceforge/campagnol/MsgServStruct.java:77-89 | bytes after offset 11 do not change the decoded message |
| Wire.PreformattedIsEncoded | trunk/rdvserver/net/sourceforge/campagnol/MsgServStruct.java:46-74 | MSG_OK, MSG_NOK, MSG_PING and the others equal the encoding of a message with that tag, port 0 and null addresses |
| Connections.Connection.constructor | rdvserver/Connection.java:35-43 | a new connection has client1 = the requester, client2 = the target, the current time and nbTries = 0 |
| Connections.Connection.UpdateTime | rdvserver/Connection.java:45-48 | updateTime sets initTime to now and adds exactly one to nbTries (32-bit wrap-around); the ends do not change |
| Connections.Connection.GetTries | rdvserver/Connection.java:59 | getTries returns the retry counter and reads nothing else |
| Connections.KeyEqualsDirectional | rdvserver/net/sourceforge/campagnol/CampagnolServer.java:44-47 | ConnectionKey equality is directional: (a, b) equals (b, a) only when a = b |
| Connections.KeyEqualsIsEquality | rdvserver/net/sourceforge/campagnol/CampagnolServer.java:44-47 | ConnectionKey equality is equality of the ordered pair, so a map keyed by pairs behaves as the HashMap |
| Connections.CompareSessionsIsOrder | trunk/rdvserver/session.c:36-52 | compare_sessions is 0 exactly when both peers match in order, so (a, b) and (b, a) are distinct sessions; it is antisymmetric |
| Connections.KeyEquals | rdvserver/net/sourceforge/campagnol/CampagnolServer.java:44-47 | ConnectionKey.equals; Connections.KeyEqualsDirectional and KeyEqualsIsEquality state what it means |
| Connections.CompareSessions | trunk/rdvserver/session.c:36-52 | compare_sessions; Connections.CompareSessionsIsOrder states that it orders sessions by direction |
| Peers.Client.constructor | trunk/rdvserver/peer.c:90-100 | a new client record holds the public address, the VPN IP, the local address and the registration time |
| Peers.Client.UpdateTime | rdvserver/peer.h:60-62 | client_update_time sets the activity time to now and changes nothing else |
| Peers.SAddr | trunk/rdvserver/peer.c:47-64 | an address read as s_addr is a 32-bit unsigned number |
| Peers.SAddrInjective | trunk/rdvserver/peer.c:44-69 | distinct addresses have distinct s_addr values, so equal keys in the trees mean equal addresses |
| Peers.CompareClientsAddrIsOrder | trunk/rdvserver/peer.c:44-58 | compare_clients_addr is a lexicographic total order on (address, port): values in {-1, 0, 1}, 0 exactly for equal pairs, antisymmetric, transitive |
| Peers.CompareClientsVpnIsOrder | trunk/rdvserver/peer.c:61-69 | compare_clients_vpn is a total order whose 0 means equal VPN IPs |
| Peers.CompareClientsAddr | trunk/rdvserver/peer.c:44-58 | compare_clients_addr; Peers.CompareClientsAddrIsOrder states that it is a total order |
| Peers.CompareClientsVpn | trunk/rdvserver/peer.c:61-69 | compare_clients_vpn; Peers.CompareClientsVpnIsOrder states that it is a total order |
| Rendezvous.Inc32 | rdvserver/Connection.java:35-47 | nbTries++ on a Java int: one more, wrapping from 2^31-1 to -2^31 |
| Rendezvous.Touch | rdvserver/peer.h:60-62 | updateTime on a registered client: its record in both indexes gets the new time; its properties are the contracts of RendezvousLemmas.TouchKeepsInv and PingRefreshes |
| Rendezvous.Add | rdvserver/net/sourceforge/campagnol/CampagnolServer.java:79-83 | addClient: the client goes into both maps; RendezvousLemmas.AddKeepsInv states what it keeps |
| Rendezvous.Remove | rdvserver/net/sourceforge/campagnol/CampagnolServer.java:86-145 | removeConnectionsWithClient then removeClient; RendezvousLemmas.RemoveKeepsInv, RemoveCard and ByeRemovesSender state its effect |
| Rendezvous.CleanDead | rdvserver/net/sourceforge/campagnol/CampagnolServer.java:148-158 | cleanDeadClients: every dead client with its connections goes; RendezvousLemmas.CleanDeadExact states exactly what remains |
| Rendezvous.HelloNew | rdvserver/net/sourceforge/campagnol/CampagnolServer.java:238-274 | HELLO from an unregistered address; its cases are the contracts of RendezvousLemmas.HelloForHeldVpnRefused, HelloEvictsTimedOutHolder, HelloWhenFull and HelloNewKeepsInv |
| Rendezvous.HelloRegistered | rdvserver/net/sourceforge/campagnol/CampagnolServer.java:275-300 | the corrected HELLO from a registered address; RendezvousLemmas.HelloFromRegistered and HelloRegisteredKeepsInv state its cases and what it keeps |
| Rendezvous.HelloRegisteredAsWritten | rdvserver/net/sourceforge/campagnol/CampagnolServer.java:275-300 | HELLO from a registered address as the Java server does it; RendezvousLemmas.ReRegisterAsWrittenBreaksIndexes shows the indexes it breaks |
| Rendezvous.HelloRegisteredAsWrittenInC | rdvserver/server.c:226-250 | HELLO from a registered address as the C server does it, where add_client's VPN tree keeps a live holder; RendezvousLemmas.ReRegisterAsWrittenInCBreaksIndexes shows the indexes it breaks |
| Rendezvous.Ask | rdvserver/net/sourceforge/campagnol/CampagnolServer.java:318-366 | ASK_CONNECTION; its cases are the contracts of RendezvousLemmas.AskRejected, AskNewConnection, AskRepeated and AskAllocationFails |
| Rendezvous.Close | rdvserver/net/sourceforge/campagnol/CampagnolServer.java:369-375 | CLOSE_CONNECTION; RendezvousLemmas.CloseBothWays states its effect |
| Rendezvous.Handle | rdvserver/net/sourceforge/campagnol/CampagnolServer.java:230-383 | the dispatch of analyse, with the corrected re-registration; RendezvousLemmas.HandleKeepsInv and UnknownSenderReconnect state what it keeps and refuses |
| Rendezvous.Receive | rdvserver/server.c:350-355 | the length filter of the C server; RendezvousLemmas.WrongLengthIgnored states it |
| RendezvousLemmas.TouchKeepsInv | rdvserver/net/sourceforge/campagnol/CampagnolServer.java:281-315 | refreshing a registered client's time keeps both indexes in agreement and changes no key and no connection |
| RendezvousLemmas.AddKeepsInv | rdvserver/net/sourceforge/campagnol/CampagnolServer.java:79-83 | addClient puts the client in both maps together, so the indexes still agree and the cap holds when there was room |
| RendezvousLemmas.RemoveKeepsInv | rdvserver/net/sourceforge/campagnol/CampagnolServer.java:86-145 | removeConnectionsWithClient then removeClient keeps the indexes in agreement, shrinks the key sets and lowers the count by one |
| RendezvousLemmas.RemoveIndexed | rdvserver/net/sourceforge/campagnol/CampagnolServer.java:86-90 | removing a registered client from both maps leaves the address map and the VPN map in agreement |
| RendezvousLemmas.RemoveConnsWellFormed | rdvserver/net/sourceforge/campagnol/CampagnolServer.java:137-145 | after removing a client's connections, every remaining connection still links two registered clients and no key is added |
| RendezvousLemmas.RemoveCard | trunk/rdvserver/peer.c:161 | removing a registered client takes exactly its VPN IP out of the VPN index, one fewer client |
| RendezvousLemmas.RemoveUnlinked | trunk/rdvserver/peer.c:141-162 | removing a client no session mentions touches only the two indexes and keeps every invariant, with one fewer client |
| RendezvousLemmas.CleanDeadKeepsInv | rdvserver/net/sourceforge/campagnol/CampagnolServer.java:148-158 | cleanDeadClients keeps the indexes in agreement and only shrinks them |
| RendezvousLemmas.OneWayOfSubset | rdvserver/net/sourceforge/campagnol/CampagnolServer.java:344-360 | dropping connections cannot create a pair of requests in both directions |
| RendezvousLemmas.HelloNewKeepsInv | rdvserver/net/sourceforge/campagnol/CampagnolServer.java:241-274 | HELLO from an unregistered address keeps the indexes in agreement and the cap, and adds no connection |
| RendezvousLemmas.AskKeepsInv | rdvserver/net/sourceforge/campagnol/CampagnolServer.java:318-368 | ASK_CONNECTION keeps the indexes, the cap and the rule that no two clients hold requests both ways |
| RendezvousLemmas.ReplaceConnKeepsInv | rdvserver/net/sourceforge/campagnol/CampagnolServer.java:365 | refreshing an existing connection in place keeps the invariant |
| RendezvousLemmas.AddConnKeepsInv | rdvserver/net/sourceforge/campagnol/CampagnolServer.java:349-357 | adding a connection between two registered clients keeps the invariant |
| RendezvousLemmas.HandleKeepsInv | rdvserver/net/sourceforge/campagnol/CampagnolServer.java:230-383 | every packet the corrected handler takes keeps both indexes in agreement, the max_clients cap, and at most one direction per client pair |
| RendezvousLemmas.HelloRegisteredKeepsInv | rdvserver/net/sourceforge/campagnol/CampagnolServer.java:275-300 | HELLO from a registered address (refresh, refuse or re-register) keeps all three invariants |
| RendezvousLemmas.CloseKeepsInv | rdvserver/net/sourceforge/campagnol/CampagnolServer.java:369-375 | CLOSE_CONNECTION keeps all three invariants |
| RendezvousLemmas.CleanDeadKeepsOneWay | rdvserver/net/sourceforge/campagnol/CampagnolServer.java:148-158 | the periodic cleaning keeps all three invariants |
| RendezvousLemmas.WrongLengthIgnored | rdvserver/server.c:353-355 | a datagram whose length is not sizeof(message_t) changes nothing and gets no reply |
| RendezvousLemmas.UnknownSenderReconnect | rdvserver/net/sourceforge/campagnol/CampagnolServer.java:231-236 | any message but HELLO from an unregistered address only earns RECONNECT and changes no state |
| RendezvousLemmas.HelloForHeldVpnRefused | rdvserver/net/sourceforge/campagnol/CampagnolServer.java:242-253 | HELLO for a VPN IP a live client holds gets NOK and changes nothing |
| RendezvousLemmas.HelloEvictsTimedOutHolder | rdvserver/net/sourceforge/campagnol/CampagnolServer.java:244-274 | for any max_clients the registry respects, a timed-out holder of the VPN IP is removed with its connections and the newcomer is registered under that IP and gets OK |
| RendezvousLemmas.HelloWhenFull | rdvserver/net/sourceforge/campagnol/CampagnolServer.java:258-264 | at max_clients dead clients are cleaned first; NOK if still full, otherwise the newcomer is added to the cleaned tables |
| RendezvousLemmas.NewClientLocalAddress | rdvserver/server.c:210-219 | the new record keeps the sender and the VPN IP; the local address is stored only when the HELLO's port is not 0 |
| RendezvousLemmas.HelloFromRegistered | rdvserver/net/sourceforge/campagnol/CampagnolServer.java:277-300 | a live registered sender gets NOK; a timed-out one with the same VPN IP is refreshed and gets OK; with a free new VPN IP it is replaced and its connections go |
| RendezvousLemmas.ByeRemovesSender | rdvserver/net/sourceforge/campagnol/CampagnolServer.java:303-309 | BYE removes the sender from both indexes and exactly the connections it takes part in, with no reply |
| RendezvousLemmas.PingRefreshes | rdvserver/net/sourceforge/campagnol/CampagnolServer.java:310-317 | PING answers PONG; the sender's record, in both indexes, changes only in its time, which becomes now; no other client and no connection changes |
| RendezvousLemmas.AskRejected | rdvserver/net/sourceforge/campagnol/CampagnolServer.java:321-338 | ASK for an unknown or timed-out client sends REJ_CONNECTION carrying the asked IP; a timed-out target is evicted; an unknown one changes nothing |
| RendezvousLemmas.AskNewConnection | rdvserver/net/sourceforge/campagnol/CampagnolServer.java:344-360 | a new ASK drops the reverse request, adds exactly one (asker, target) entry with nbTries 0, keeps every other entry and sends ANS to the asker then FWD to the target |
| RendezvousLemmas.AskRepeated | rdvserver/net/sourceforge/campagnol/CampagnolServer.java:361-366 | a repeated ASK re-sends ANS to the asker and FWD to the target, each carrying the other's endpoint and VPN IP, and only refreshes the existing entry's time and retry count |
| RendezvousLemmas.AskAllocationFails | rdvserver/server.c:287-300 | when add_session fails the reverse session is still gone and the asker gets REJ_CONNECTION |
| RendezvousLemmas.IntroduceEndpoint | rdvserver/net/sourceforge/campagnol/CampagnolServer.java:340-343 | the local endpoint is disclosed exactly when both clients announced a local port and share a public IP; otherwise the public one; ip2 is the VPN IP |
| RendezvousLemmas.CloseBothWays | rdvserver/net/sourceforge/campagnol/CampagnolServer.java:369-375 | CLOSE_CONNECTION removes the requests between the two clients in both directions, leaves both client indexes and every other request unchanged, and sends no reply |
| RendezvousLemmas.CleanDeadExact | rdvserver/server.c:402-413 | clean_dead_clients removes exactly the dead clients and exactly the sessions that involve one |
| RendezvousLemmas.DeadIsTimedOut | rdvserver/peer.h:64-65 | a dead client (silent more than 10 s) is also timed out (more than 5 s) |
| RendezvousLemmas.ReRegisterAsWrittenBreaksIndexes | rdvserver/net/sourceforge/campagnol/CampagnolServer.java:283-294 | a timed-out client re-registering under a live client's VPN IP makes the indexes disagree in the code as written; the corrected handler refuses it |
| RendezvousLemmas.ReRegisterAsWrittenInCBreaksIndexes | rdvserver/server.c:226-250 | in the C server the same HELLO also gets OK, but the VPN tree still names the live holder, so the re-registered client is not found by its VPN IP and the indexes disagree |
| Server.RdvServer.constructor | rdvserver/net/sourceforge/campagnol/CampagnolServer.java:76 | the server starts with empty trees, no client, and the invariants established |
| Server.RdvServer.GetClientReal | trunk/rdvserver/peer.c:181-189 | finds a client exactly when one is registered under that public address and port, and returns that client |
| Server.RdvServer.GetClientVPN | trunk/rdvserver/peer.c:168-175 | finds a client exactly when one holds that VPN IP, and returns it |
| Server.RdvServer.AddClient | trunk/rdvserver/peer.c:74-136 | refuses at max_clients or on an allocation failure, leaving the tables as they were (a failed second insert undoes the first); otherwise the client is in both trees and n_clients is one more |
| Server.RdvServer.RemoveClient | trunk/rdvserver/peer.c:141-162 | the client leaves both trees, n_clients drops by one and the sessions are untouched |
| Server.RdvServer.RefreshClient | rdvserver/peer.h:60-62 | only the client's time changes, in both trees |
| Server.RdvServer.GetSession | trunk/rdvserver/session.c:100-108 | finds a session exactly when there is one from the first client to the second, in that direction only |
| Server.RdvServer.AddSession | trunk/rdvserver/session.c:54-82 | on success exactly one new session (asker, target) with the current time and no retries; on allocation failure nothing changes |
| Server.RdvServer.RemoveSession | trunk/rdvserver/session.c:84-98 | exactly that session is gone and the invariants still hold |
| Server.RdvServer.RefreshSession | rdvserver/session.h:57-59 | only that session's start time and retry count change (the count as Java's int) |
| Server.RdvServer.RemoveSessionsWithClient | trunk/rdvserver/session.c:110-120 | the session table loses exactly the sessions whose asker or target is that client |
| Server.RdvServer.Evict | rdvserver/net/sourceforge/campagnol/CampagnolServer.java:137-145 | removes a client and every session that involves it, and nothing else |
| Server.RdvServer.CleanDeadClients | rdvserver/server.c:402-413 | the tables become the model's clean-up of dead clients, computed from the state before the walk |
| Server.RdvServer.HandleHelloNew | rdvserver/server.c:189-225 | the tables and the replies equal the model's HELLO from an unregistered address |
| Server.RdvServer.HandleHelloRegistered | rdvserver/net/sourceforge/campagnol/CampagnolServer.java:275-300 | the tables and the replies equal the corrected HELLO from a registered address |
| Server.RdvServer.HandleAsk | rdvserver/server.c:266-310 | the tables and the replies equal the model's ASK_CONNECTION |
| Server.RdvServer.HandleClose | rdvserver/server.c:311-323 | the tables equal the model's CLOSE_CONNECTION and there is no reply |
| Server.RdvServer.HandlePacket | rdvserver/server.c:160-327 | the new tables and the sent messages are the corrected handler's result for the message, and the invariants still hold |
| Server.RdvServer.ReceiveDatagram | rdvserver/server.c:350-355 | a datagram is handled only when it is exactly one message long, as the model says |
| Server.HelloNewSteps | rdvserver/server.c:190-208 | after the holder check and the clean-up the sender is still unregistered and the VPN IP free, so the handler's steps compose to the model |
| Server.CleanDeadAfterRemove | rdvserver/server.c:405-411 | evicting one dead client does not change what the clean-up of the whole table yields |
| Server.CleanDeadNoop | rdvserver/server.c:402-413 | with no dead client left the clean-up changes nothing |
| Server.PendingStep | trunk/rdvserver/session.c:113-118 | handling one snapshot entry moves the walk one step closer to the table without that client's sessions |
| ConfigIO.NextChar | common/config_io.c:67-82 | read_buf_next gives EOF exactly at the end of the data without consuming anything; otherwise it consumes one or two characters, gives '\n' exactly for a line feed or a "\r\n" pair, and gives any other character as is |
| ConfigIO.Peek | common/config_io.c:87-89 | read_buf_peek gives the readahead character, EOF exactly at the end, and consumes nothing |
| ConfigIO.ReadBuf.constructor | common/config_io.c:57-61 | a new buffer is at the start of the data, at line 1 and column 1 |
| ConfigIO.ReadBuf.PeekNext | common/config_io.c:87-89 | the buffer's readahead is the next raw character of the data |
| ConfigIO.ReadBuf.Next | common/config_io.c:67-103 | reads the next character as NextChar says; a line feed moves to the next line at column 1, another character one column right, EOF moves nothing |
| ConfigIO.HexToInt | common/config_io.c:109-116 | a hex digit's value is below 16 |
| ConfigIO.OctToInt | common/config_io.c:127-129 | an octal digit's value is below 8 |
| ConfigIO.Unescape | common/config_io.c:135-216 | an escape yields one or two characters and reads digits past the escape letter only for \x and octal escapes |
| ConfigIO.EscapeRoundTrip | common/config_io.c:221-261 | char_escape writes a character either unchanged, when it is none of the characters the readers treat specially, or as a backslash and a letter that is not a line end |
| ConfigIO.CharUnescape | common/config_io.c:135-216 | the name or value buffer grows by exactly what the escape stands for, and the reader advances past the digits it used |
| ConfigIO.UnescapeHex | common/config_io.c:165-184 | \x with one or two hex digits pushes their value and consumes them; without a digit it pushes the backslash and the x |
| ConfigIO.UnescapeOct | common/config_io.c:192-209 | an octal escape pushes the value of up to three digits and consumes the two after the first |
| ConfigIO.CharEscape | common/config_io.c:221-261 | the output buffer grows by exactly the escaped form of the character |
| ConfigIO.IdtStep | common/config_io.c:293-464 | each turn of the identifier loop consumes at least one character, except at the end of the data where it stops |
| ConfigIO.IdtRun | common/config_io.c:293-464 | the identifier loop always reaches its end state without reading past the data |
| ConfigIO.IdtTurn | common/config_io.c:294-463 | one turn on the buffers performs exactly the model's step |
| ConfigIO.NextIdt | common/config_io.c:272-470 | nparser_get_next_idt gives the model's return code, name and end position, the name right-stripped for a section or a key |
| ConfigIO.IdtStepGood | common/config_io.c:301-460 | each step of the identifier reader keeps what holds in every state: a name starts with a non-blank character, and return codes 1 and 2 occur only in their states |
| ConfigIO.IdtRunGood | common/config_io.c:293-464 | those facts hold at the end of the identifier loop |
| ConfigIO.NextIdtResult | common/config_io.c:263-270 | the result is -1, 0, 1 or 2; 0 exactly at the end of the file with an empty name; a section or key name is non-empty without blanks at either end; a section is read to the end of its line and a key up to its '=' |
| ConfigIO.RStrippedKeepsFirst | common/strlib.c:120-127 | right-stripping a name that starts with a non-blank character keeps that character |
| ConfigIO.ValStep | common/config_io.c:495-592 | each turn of the value loop consumes at least one character, except at the end of the data where it stops |
| ConfigIO.ValRun | common/config_io.c:495-592 | the value loop always reaches its end state within the data |
| ConfigIO.ValTurn | common/config_io.c:496-591 | one turn on the buffers performs exactly the model's step, rstrip mark included |
| ConfigIO.NextValue | common/config_io.c:478-599 | nparser_get_next_value gives the model's return code, value and end position |
| ConfigIO.ValStepGood | common/config_io.c:503-590 | each step keeps: only the end state carries -1, and the reader stops after a line feed or at the end |
| ConfigIO.ValRunGood | common/config_io.c:495-592 | those facts hold at the end of the value loop |
| ConfigIO.NextValueResult | common/config_io.c:472-477 | the result is 0 or -1, -1 only at the end of the file, and the reader stops right after a line feed or at the end of the file |
| ConfigIO.QuotedChar | common/config_io.c:523-553 | inside quotes the escaped form of a character is read back as that character |
| ConfigIO.QuotedPlain | common/config_io.c:538-540 | inside quotes a character that needs no escape is pushed as is |
| ConfigIO.QuotedEscaped | common/config_io.c:535-553 | inside quotes a backslash and a letter that unescapes to one character push that character |
| ConfigIO.QuotedRun | common/config_io.c:523-553 | inside quotes the escaped form of any text is read back as that text |
| ConfigIO.OpenQuote | common/config_io.c:512-514 | a double quote at the start of a value enters the quoted state |
| ConfigIO.CloseQuote | common/config_io.c:503-534 | a closing quote sets the rstrip mark at the value's length, and the line end then ends the value |
| ConfigIO.QuotedFrom | common/config_io.c:503-553 | a quoted value up to its closing quote and line end is read as the unescaped text |
| ConfigIO.QuotedUpTo | common/config_io.c:512-553 | from the opening quote up to the closing one, the escaped text is read back |
| ConfigIO.QuotedValueRoundTrip | common/config_io.c:700-708 | a value as parser_write writes it, quoted with every character escaped and a line feed after, is read back exactly, blanks included |
| ConfigIO.UnquotedChar | common/config_io.c:566-568 | an unquoted value grows by each character that is not special |
| ConfigIO.UnquotedPrefix | common/config_io.c:518-568 | a run of plain characters starting with a non-blank one is read as is |
| ConfigIO.StartUnquoted | common/config_io.c:518-521 | a plain non-blank character starts an unquoted value |
| ConfigIO.EndUnquoted | common/config_io.c:555-558 | the line end ends an unquoted value, right-stripped |
| ConfigIO.UnquotedValue | common/config_io.c:503-568 | an unquoted value of plain characters is read up to the end of its line and right-stripped |
| ConfigIO.UnquotedValueAt | common/config_io.c:503-568 | the same, with the line given character by character |
| ConfigIO.InQuoteToEof | common/config_io.c:523-527 | inside quotes with no quote or backslash left, the reader reaches EOF and fails with -1 |
| ConfigIO.UnterminatedQuote | common/config_io.c:594-598 | a quote never closed is an unexpected end of file, whatever follows |
| ConfigIO.CStrSpec | common/config_io.c:638-657 | what C sees of a buffer is its longest prefix without a NUL character: it stops at the first one, or is all of it |
| ConfigIO.ReadKey | common/config_io.c:632-659 | reading a key's value never moves the reader backwards nor past the data |
| ConfigIO.ReadStep | common/config_io.c:626-660 | each turn of parser_read's loop advances in the file |
| ConfigIO.ReadKeyInto | common/config_io.c:632-659 | the key case on the buffers computes exactly the model's key step: position, current section and stored options |
| ConfigIO.StoreKey | common/config_io.c:649-657 | a key stored while no section is current makes DEFAULT the current section, and the option is stored under the current section with its line |
| ConfigIO.ReadEntry | common/config_io.c:626-660 | one turn of the loop: 0 exactly at the end of the file with nothing changed; otherwise the model's step on sections and options |
| ConfigIO.ParserRead | common/config_io.c:605-667 | parser_read stores exactly what the model's reading of the whole file stores |
| ConfigIO.SetInChanges | common/config_parser.c:54-99 | parser_set changes at most one option, and that option then holds the value and line set |
| ConfigIO.ReadStoresOnlyAllowed | common/config_io.c:626-660 | every option parser_read changes is then stored, with the number of a line of the file, and with a non-empty value unless empty values are allowed |
| ConfigIO.ReadStepStoresOnlyAllowed | common/config_io.c:632-659 | one turn of the loop changes at most the option it reads, with the same guarantees |
| ConfigIO.NewlinesPrefix | common/config_io.c:634 | the line of a key is never beyond the file's last line |
| ConfigIO.KeyOutsideSectionDropped | common/config_io.c:643-647 | without a default section, a key outside any section is dropped and the value skipped |
| ConfigIO.KeyOutsideSectionDefault | common/config_io.c:649-652 | with a default section, such a key is stored under DEFAULT, which becomes the current section |
| ConfigIO.DefaultIsCString | trunk/common/config_parser.h:121 | "DEFAULT" holds no NUL character, so C sees all of it |
| ConfigIO.EmptyValueDropped | common/config_io.c:638-642 | a key with an empty value is dropped when empty values are not allowed |
| ConfigParser.HasSection | common/config_parser.c:119-126 | true exactly when the section exists; a missing section holds no option |
| ConfigParser.SectionCount | common/config_parser.c:129-141 | -1 for a missing section, otherwise its number of options |
| ConfigParser.HasOption | common/config_parser.c:144-161 | true exactly when the section exists and holds the option |
| ConfigParser.SetIn | common/config_parser.c:54-97 | afterwards the option holds the value and line given, every other option is unchanged, and n_values grows by one only for a new option |
| ConfigParser.SetInSections | common/config_parser.c:61-74 | parser_set keeps every section and creates at most the one it names |
| ConfigParser.AddSectionIn | common/config_parser.c:101-116 | the section exists afterwards, empty when new; an existing section and every option are left as they were |
| ConfigParser.RemoveOptionIn | common/config_parser.c:526-549 | the corrected removal: the option is gone, every other option is unchanged, no section disappears, and n_values drops by one only when the option existed |
| ConfigParser.RemoveSectionIn | common/config_parser.c:554-566 | the corrected removal: the section and all its options are gone and every other section is unchanged |
| ConfigParser.RemoveOptionAsWritten | common/config_parser.c:526-549 | parser_remove_option as written reaches undefined behaviour exactly when the option exists; otherwise it leaves what the corrected removal leaves |
| ConfigParser.RemoveSectionAsWritten | common/config_parser.c:554-566 | parser_remove_section as written reaches undefined behaviour exactly when the section exists; otherwise it leaves what the corrected removal leaves |
| ConfigParser.RemoveOptionAfterSetAsWritten | common/config_parser.c:526-549 | an option just set cannot be removed as written, while the corrected removal removes it |
| ConfigParser.RemoveSectionAfterSetAsWritten | common/config_parser.c:554-566 | a section just set cannot be removed as written, while the corrected removal drops it |
| ConfigParser.Find | common/config_parser.c:186-187 | strchr finds the first index at or after the start holding the character, and None exactly when there is none |
| ConfigParser.RefAt | common/config_parser.c:186-187 | a reference is "${" at the position followed by the first '}' after it |
| ConfigParser.PlainLength | common/config_parser.c:174-202 | the first loop counts at least the final NUL byte |
| ConfigParser.Substitution | common/config_parser.c:165-274 | parser_substitution writes exactly the model's expansion, and the length it computes (first loop plus the inserted texts) is the length written plus the NUL byte, as its final ASSERT claims |
| ConfigParser.Expanded | common/config_parser.c:276-294 | parser_get_expanded: an option being expanded reads as the error string; ConfigParser.SelfReference states it |
| ConfigParser.Substituted | common/config_parser.c:165-274 | what the second loop of parser_substitution writes; ConfigParser.PlainValue, EscapedDollar and UndefinedReference state its cases, ConfigParser.Substitution that the loop writes it |
| ConfigParser.SubstitutedStep | common/config_parser.c:212-269 | one turn of the second loop writes what the expansion produces between the two positions and adds to the length what the first loop left out |
| ConfigParser.SubstitutedHead | common/config_parser.c:213-265 | the expansion from a position starts with the text one turn writes there |
| ConfigParser.PlainLengthHead | common/config_parser.c:180-202 | the first loop's count from a position is the count of one turn plus the count from the next position |
| ConfigParser.Get | common/config_parser.c:276-326 | NULL exactly for a missing section or option; without expansions the raw value |
| ConfigParser.PlainValue | common/config_parser.c:249-253 | a value with no '$' and no backslash expands to itself |
| ConfigParser.EscapedDollar | common/config_parser.c:255-265 | a backslash followed by a dollar sign expands to a plain dollar sign, and the text after it is kept |
| ConfigParser.SelfReference | common/config_parser.c:282-285 | an option whose value refers to itself reads as the error string "[RECURSION ERROR]" |
| ConfigParser.UndefinedReference | common/config_parser.c:232-246 | a reference to an option the section does not hold is kept as written |
| ConfigParser.GetScanned | common/config_parser.c:334-366 | -1 when the option is undefined, otherwise what the sscanf conversion reports |
| ConfigParser.InRange | common/config_parser.c:379-386 | a converted value outside the bounds turns success into 0; success keeps the value; other results pass through |
| ConfigParser.GetInt | common/config_parser.c:374-387 | success only with a value within int's range; an out-of-range conversion gives 0 |
| ConfigParser.GetUInt | common/config_parser.c:395-408 | success only with a value within unsigned int's range; an out-of-range conversion gives 0 |
| ConfigParser.GetUShort | common/config_parser.c:416-429 | success only with a value within unsigned short's range; an out-of-range conversion gives 0 |
| ConfigParser.GetBoolean | common/config_parser.c:460-483 | -1 exactly for an undefined option; 1 with true exactly for yes/1/true/on and 1 with false exactly for no/0/false/off, in any case; 0 otherwise |
| ConfigParser.BooleanWordsDisjoint | common/config_parser.c:471-480 | no word is both a true word and a false word |
| ConfigParser.CommentStart | common/config_parser.c:575-599 | the cut is within the line |
| ConfigParser.CommentStartIsFirst | common/config_parser.c:575-599 | the cut is at a '#' or ';', and every '#' or ';' before it directly follows a backslash |
| ConfigParser.NulAt | common/config_parser.c:597-598 | the terminating NUL is the first one in the buffer |
| ConfigParser.RemoveComments | common/config_parser.c:569-602 | the line is cut in place at its first unescaped '#' or ';', every other byte keeps its value, and the result is the length left |
| ConfigParser.Parser.constructor | common/config_parser.c:514-521 | a new parser holds no section and keeps the three switches given |
| ConfigParser.Parser.Set | common/config_parser.c:54-97 | the store becomes SetIn of the old store and the counts stay right |
| ConfigParser.Parser.AddSection | common/config_parser.c:101-116 | the store becomes AddSectionIn of the old store |
| ConfigParser.Parser.RemoveOption | common/config_parser.c:526-549 | the store becomes RemoveOptionIn of the old store |
| ConfigParser.Parser.RemoveSection | common/config_parser.c:554-566 | the store becomes RemoveSectionIn of the old store |
| StrLib.GrownLength | common/strlib.c:77-94 | the new size always fits the string, the growth and the NUL byte, never shrinks, is unchanged when there was room, and grows by at least half (plus 16) otherwise |
| StrLib.RStrippedSpec | common/strlib.c:116-124 | rstrip keeps a prefix, drops only blanks, and what is left ends in a non-blank or is no longer than the mark |
| StrLib.RStripped | common/strlib.c:120-124 | the text strlib_rstrip leaves; StrLib.RStrippedSpec, RStrippedIdempotent and RStrippedKeepsMarked state what it keeps and drops |
| StrLib.RStrippedIdempotent | common/strlib.c:120-124 | stripping twice leaves what stripping once leaves |
| StrLib.RStrippedKeepsMarked | common/strlib.c:121 | the characters before the mark always survive, blanks included |
| StrLib.StrBuf.constructor | common/strlib.c:39-46 | strlib_init gives the empty string, mark 0, in a buffer grown for one byte |
| StrLib.StrBuf.Grow | common/strlib.c:77-94 | afterwards the buffer has the grown size; a reallocated buffer carries the old bytes over; the string and mark are unchanged |
| StrLib.StrBuf.Reset | common/strlib.c:61-65 | the empty string and mark 0, in the same buffer |
| StrLib.StrBuf.SetMark | common/strlib.c:70-72 | only the mark changes |
| StrLib.StrBuf.Push | common/strlib.c:99-104 | the string grows by exactly the character, still NUL-terminated |
| StrLib.StrBuf.Append | common/strlib.c:109-114 | the string grows by exactly the characters given, still NUL-terminated |
| StrLib.StrBuf.RStrip | common/strlib.c:120-124 | the string becomes its right-stripped form, down to the mark |
| OptionParser.GetKeySpec | trunk/rdvserver/net/sourceforge/campagnol/OptionParser.java:62-86 | a found key is a declared option the key is a prefix of; a different one only when the key is not declared itself and abbreviates exactly that option; an exception only for an undeclared key |
| OptionParser.GetKey | trunk/rdvserver/net/sourceforge/campagnol/OptionParser.java:62-86 | the scan of the table's names gives exactly the lookup the specification describes: the exact name, else the unique abbreviation, else "ambiguous" or "Unknow option" |
| OptionParser.IndexOf | trunk/rdvserver/net/sourceforge/campagnol/OptionParser.java:197 | the first index of the character, None exactly when it does not occur |
| OptionParser.LongArg | trunk/rdvserver/net/sourceforge/campagnol/OptionParser.java:196-231 | a long option uses its own argument and at most the next one |
| OptionParser.ShortToken | trunk/rdvserver/net/sourceforge/campagnol/OptionParser.java:233-268 | a short-option group uses its own argument and at most the next one |
| OptionParser.ParseShortOptions | trunk/rdvserver/net/sourceforge/campagnol/OptionParser.java:139-166 | the mode and the short-option table built from the list, as ShortConfig says |
| OptionParser.ParseLongOptions | trunk/rdvserver/net/sourceforge/campagnol/OptionParser.java:169-190 | the long-option table built from the list, as LongConfig says |
| OptionParser.ParseToken | trunk/rdvserver/net/sourceforge/campagnol/OptionParser.java:234-267 | the loop over a short-option group gives exactly the model's result for it |
| OptionParser.ParseLong | trunk/rdvserver/net/sourceforge/campagnol/OptionParser.java:196-231 | the long-option branch gives exactly the model's result for the argument |
| OptionParser.Getopt | trunk/rdvserver/net/sourceforge/campagnol/OptionParser.java:129-286 | getopt returns exactly the options and remaining arguments, or the exception, that the model's scan of the arguments gives |
| OptionParser.GetoptSpec | trunk/rdvserver/net/sourceforge/campagnol/OptionParser.java:129-286 | the outcome getopt specifies; the OptionParser lemmas below state its cases and OptionParser.Getopt that the method computes it |
| OptionParser.GetoptTurn | trunk/rdvserver/net/sourceforge/campagnol/OptionParser.java:193-279 | one turn of the loop either moves on to a later argument with the same final outcome, or ends with that outcome |
| OptionParser.AppendRest | trunk/rdvserver/net/sourceforge/campagnol/OptionParser.java:281-283 | the arguments after the scan stopped are appended in order |
| OptionParser.ShortTableKeeps | trunk/rdvserver/net/sourceforge/campagnol/OptionParser.java:152 | a short option already declared keeps its kind |
| OptionParser.ShortDeclaration | trunk/rdvserver/net/sourceforge/campagnol/OptionParser.java:152-163 | the first declaration decides: "c::" an optional argument, "c:" a mandatory one, a bare "c" none |
| OptionParser.ShortTableKeys | trunk/rdvserver/net/sourceforge/campagnol/OptionParser.java:150-165 | every short option comes from a character of the list |
| OptionParser.LongTableKeeps | trunk/rdvserver/net/sourceforge/campagnol/OptionParser.java:174-185 | a long option already declared keeps its kind |
| OptionParser.LongDeclaration | trunk/rdvserver/net/sourceforge/campagnol/OptionParser.java:170-189 | the first declaration of a long name decides its kind |
| OptionParser.LongEntryKinds | trunk/rdvserver/net/sourceforge/campagnol/OptionParser.java:172-187 | "name::" declares an optional argument, "name:" a mandatory one, a bare name none |
| OptionParser.GetKeyAbbreviation | trunk/rdvserver/net/sourceforge/campagnol/OptionParser.java:67-81 | a unique abbreviation stands for the option it abbreviates |
| OptionParser.GetKeyAmbiguous | trunk/rdvserver/net/sourceforge/campagnol/OptionParser.java:70-76 | an abbreviation of two options raises "Option --key is ambiguous" |
| OptionParser.GetKeyUnknown | trunk/rdvserver/net/sourceforge/campagnol/OptionParser.java:82-84 | a key no option starts with raises "Unknow option --key" |
| OptionParser.IndexOfAssignment | trunk/rdvserver/net/sourceforge/campagnol/OptionParser.java:197-200 | "--name=value" splits at its first '=' into the name and the value |
| OptionParser.LongAssignment | trunk/rdvserver/net/sourceforge/campagnol/OptionParser.java:198-204 | "--name=value" gives the value to an option that takes one |
| OptionParser.LongAssignmentRefused | trunk/rdvserver/net/sourceforge/campagnol/OptionParser.java:205-207 | "--name=value" for an option without argument raises "takes no argument", whatever the mode, the short options and what was parsed before |
| OptionParser.LongMandatoryAtEnd | trunk/rdvserver/net/sourceforge/campagnol/OptionParser.java:217-225 | a long option with a mandatory argument as the last argument raises "takes an argument" |
| OptionParser.Flags | trunk/rdvserver/net/sourceforge/campagnol/OptionParser.java:263-266 | one pair per flag character |
| OptionParser.GroupedFlags | trunk/rdvserver/net/sourceforge/campagnol/OptionParser.java:235-267 | a group "-abc" of flags is the options -a, -b, -c in order, each without value |
| OptionParser.DoubleDashEndsOptions | trunk/rdvserver/net/sourceforge/campagnol/OptionParser.java:210-283 | "--" ends the scan and every argument after it is left over |
| OptionParser.NonOptionPairs | trunk/rdvserver/net/sourceforge/campagnol/OptionParser.java:272-274 | each non-option becomes the value of option "" in order |
| OptionParser.PlainArguments | trunk/rdvserver/net/sourceforge/campagnol/OptionParser.java:270-283 | arguments that are not options are left over in order, or are values of option "" in '-' mode |
| OptionParser.PlainStep | trunk/rdvserver/net/sourceforge/campagnol/OptionParser.java:270-278 | a non-option stops the scan in '+' mode, becomes a value of option "" in '-' mode, and is set aside otherwise |
| OptionParser.ShortTokenKnown | trunk/rdvserver/net/sourceforge/campagnol/OptionParser.java:237-239 | a short-option group yields only declared options |
| OptionParser.GetoptNamesKnown | trunk/rdvserver/net/sourceforge/campagnol/OptionParser.java:193-279 | every option in a successful parse is declared, or is "" in '-' mode |
| Configuration.Ipv4Broadcast | client/configuration.c:207-223 | -1 (None) exactly for a length outside 0..32; otherwise the netmask of that length and the broadcast address built from it |
| Configuration.Broadcast | client/configuration.c:221 | the broadcast address agrees with the VPN address under the mask and is all ones outside it |
| Configuration.NetmaskTopBits | client/configuration.c:213-218 | the netmask has exactly its len most significant bits set, the len == 32 case included |
| Configuration.BroadcastBits | client/configuration.c:207-223 | the broadcast address keeps the network bits of the VPN address and sets every host bit |
| Configuration.BroadcastBit | client/configuration.c:221 | each bit of the broadcast address is the address's bit under the mask and one elsewhere |
| Configuration.SpanEnd | client/configuration.c:471 | the end of the run of matching characters: all before it match and the one at it does not |
| Configuration.Decimal | client/configuration.c:471 | a string of n decimal digits has a value below 10^n |
| Configuration.StrTol | client/configuration.c:471-472 | strtol never reads past the string |
| Configuration.Suffix | client/configuration.c:455-462 | None exactly when the network has no '/'; otherwise the text after the first one |
| Configuration.CidrLengthAccepts | client/configuration.c:455-478 | the corrected check accepts exactly one or two decimal figures after the first '/', read as 0..99 |
| Configuration.CidrAgreesOnDigits | client/configuration.c:464-477 | on a suffix of figures the program's check and the corrected one agree |
| Configuration.CidrLengthAsWritten | client/configuration.c:464-477 | the CIDR check as written; Configuration.CidrSignAccepted and CidrAgreesOnDigits state where it departs from the corrected one and where it agrees |
| Configuration.CidrLength | client/configuration.c:464-477 | the corrected CIDR check; Configuration.CidrLengthAccepts states that it accepts exactly one or two figures |
| Configuration.CidrSignAccepted | client/configuration.c:464-477 | "10.0.0.0/+8" passes the program's check with length 8, though '+' is not a figure; the corrected check refuses it |
| Configuration.SignedEight | client/configuration.c:471 | strtol reads "+8" completely, as 8 |
| Configuration.NetworkSettings | client/configuration.c:447-492 | the network option yields masks only with a well-formed length of at most 32 |
| Configuration.NetworkSettingsOnDigits | client/configuration.c:464-492 | on a suffix of figures the network option gives the masks the program's own check leads to |
| Configuration.ClientSettingsAccepted | client/configuration.c:355-681 | the settings are accepted exactly when each option is absent or a number with tun_mtu >= 150, fifo_size > 0, timeout >= 5, max_clients >= 1 and keepalive >= 1; absent options take their defaults |
| Configuration.SmallMtuReported | client/configuration.c:357-363 | an MTU below 150 is reported before any option read after it |
| Configuration.ClientSettings | client/configuration.c:355-681 | the five checks of tun_mtu, fifo_size, timeout, max_clients and keepalive in parseConfFile; Configuration.ClientSettingsAccepted and SmallMtuReported state when it accepts and what it reports |
| Fifo.Window | trunk/client/bss_fifo.c:226-268 | the queue seen from a read position holds one packet per occupied slot |
| Fifo.TotalSize | trunk/client/bss_fifo.c:324-333 | an empty queue has total size 0 |
| Fifo.TotalSizeAppend | trunk/client/bss_fifo.c:328-331 | the size of two queues put together is the sum of their sizes |
| Fifo.DistinctSlots | trunk/client/bss_fifo.c:282 | the slot being written is never one of the occupied slots while the ring is not full |
| Fifo.WindowGrows | trunk/client/bss_fifo.c:268-284 | filling the slot after the occupied ones appends its packet to the queue and leaves the others |
| Fifo.WindowShrinks | trunk/client/bss_fifo.c:226-233 | advancing the read index drops exactly the oldest packet |
| Fifo.PutLast | trunk/client/bss_fifo.c:268-284 | a write appends the packet and the write index then points after it, wrapping at the end of the ring |
| Fifo.TakeFirst | trunk/client/bss_fifo.c:226-233 | a read finds the oldest packet in the read slot, and the read index then points at the next one, wrapping |
| Fifo.Wrapped | trunk/client/bss_fifo.c:329 | the PENDING walk's index (i < size ? i : i - size) is the slot i modulo the ring size |
| Fifo.FifoBio.Contents | trunk/client/bss_fifo.c:226-284 | the queue holds exactly nelem packets |
| Fifo.FifoBio.constructor | trunk/client/bss_fifo.c:87-152 | a new BIO has len slots of data_size bytes, an empty queue, threshold len/10, both indexes 0, no droptail, no receive timeout and the close flag set |
| Fifo.FifoBio.Write | trunk/client/bss_fifo.c:245-290 | a full queue with droptail drops the packet but reports it written and changes nothing; otherwise the packet (cut to its slot when a larger buffer cannot be had) is appended and its length returned; every other slot is unchanged |
| Fifo.FifoBio.Read | trunk/client/bss_fifo.c:193-240 | an empty queue with a receive timeout returns -1 and sets the timer-expired flag; otherwise the oldest packet leaves the queue and at most outl of its bytes are returned |
| Fifo.FifoBio.PendingBytes | trunk/client/bss_fifo.c:324-333 | PENDING is the total size of the queued packets |
| Fifo.FifoBio.IsEof | trunk/client/bss_fifo.c:309-313 | EOF exactly when the queue is empty |
| Fifo.FifoBio.Ctrl | trunk/client/bss_fifo.c:295-372 | RESET empties the queue; EOF, GET_CLOSE, PENDING, the timeouts and droptail report their values; GET_RECV_TIMER_EXP reports and clears the flag; unknown commands return 0; the threshold is never changed, every command but RESET keeps the ring indexes and the element count, and each setter changes only the field it names |
| Communication.InitSmsg | trunk/client/communication.c:84-89 | the memset leaves the port 0 |
| Communication.InitSmsgBytes | trunk/client/communication.c:84-89 | on the wire the message is its type, two zero port bytes, then the two addresses |
| Communication.PingIsPreformatted | trunk/client/communication.c:102-108 | the client's keepalive PING is byte for byte the preformatted PING of the server |
| Communication.Word | trunk/client/communication.c:121 | a 16-bit load is below 0x10000 |
| Communication.WordSum | trunk/client/communication.c:119-127 | the accumulated sum is bounded by one 0xffff per word plus the shifted odd byte |
| Communication.WordSumSplit | trunk/client/communication.c:119-123 | the sum over an even-length prefix and the rest is the sum of the two sums |
| Communication.FoldOnceMod | trunk/client/communication.c:130 | one fold keeps the sum modulo 0xffff, shrinks a sum above 0xffff and keeps a positive sum positive |
| Communication.CsumAsWritten | trunk/client/communication.c:116-133 | the checksum the program returns fits in 16 bits |
| Communication.ComputeCsum | trunk/client/communication.c:116-133 | the loop computes exactly the checksum as written |
| Communication.Fold | trunk/client/communication.c:130 | folding until the carry is gone gives a 16-bit value equal to the sum modulo 0xffff, positive for a positive sum |
| Communication.Csum | trunk/client/communication.c:110-115 | the RFC 1071 checksum fits in 16 bits |
| Communication.FoldMultiple | trunk/client/communication.c:130 | a positive multiple of 0xffff folds to 0xffff |
| Communication.SameRemainder | trunk/client/communication.c:130 | numbers equal modulo 0xffff differ by a multiple of it |
| Communication.CsumVerifies | trunk/client/communication.c:110-115 | adding the RFC 1071 checksum to the data's sum folds to all ones: the receiver's check succeeds |
| Communication.FoldNotAbove | trunk/client/communication.c:130 | folding never increases the sum |
| Communication.CsumAgreesWithoutCarry | trunk/client/communication.c:129-132 | the program's checksum is the RFC 1071 one whenever one fold leaves no carry |
| Communication.CsumAsWrittenLosesCarry | trunk/client/communication.c:129-132 | for bytes ff ff ff ff 00 01 one fold leaves 0x10000, the program's checksum is 0xffff instead of 0xfffe, and the receiver's check fails |
| Communication.WithChecksum | trunk/client/communication.c:368-369 | writing the checksum field keeps the packet's length |
| Communication.Readdress | trunk/client/communication.c:366-370 | readdressing keeps the packet's length |
| Communication.ChecksumFieldSum | trunk/client/communication.c:368-369 | the header's sum with the checksum field set to c is its sum with the field zeroed, plus c |
| Communication.ReaddressBroadcast | trunk/client/communication.c:366-370 | a packet for the VPN broadcast address goes to the node's own VPN address, keeps every other byte outside the checksum field, and its header passes the checksum check |
| Communication.ReaddressAsProgram | trunk/client/communication.c:366-370 | when one fold of the header sum leaves no carry, the readdressed packet carries the checksum compute_csum writes |
| TunArgs.NatString | client/tun_device_common.c:55-64 | "%d" of a non-negative number is a non-empty string of decimal digits |
| TunArgs.ReplaceArgs | client/tun_device_common.c:35-82 | the buffer is emptied, then holds exactly the expansion of the command |
| TunArgs.Replaced | client/tun_device_common.c:35-82 | the command replace_args builds; TunArgs.PlainTextUnchanged, Quoting, EscapedRoundTrip and ReplacedConcat state its properties |
| TunArgs.ScanStep | client/tun_device_common.c:42-80 | one turn consumes one character, or a '%' and the one after it, and appends exactly what the expansion produces for them |
| TunArgs.ReplacedHead | client/tun_device_common.c:42-80 | the expansion starts with the expansion of the first '%' pair, or with the first character copied |
| TunArgs.ExpandInto | client/tun_device_common.c:44-73 | one "%c" appends exactly its expansion |
| TunArgs.PlainTextUnchanged | client/tun_device_common.c:76-79 | a command without '%' is copied unchanged |
| TunArgs.Escaped | client/tun_device_common.c:45-47 | doubling every '%' never shortens a text |
| TunArgs.EscapedRoundTrip | client/tun_device_common.c:45-79 | a text with every '%' doubled expands back to the text |
| TunArgs.ReplacedConcat | client/tun_device_common.c:41-81 | the expansion of two commands put together is the two expansions in turn |
| TunArgs.Quoting | client/tun_device_common.c:48-72 | %D and %N are put in single quotes; an unknown "%x" stays as written |
| TunArgs.NatStringValue | client/tun_device_common.c:55-64 | the digits printed for a number read back as that number |

## Left out

- Sockets, the select loop and the periodic call of clean_dead_clients every 5 seconds are not modelled. A send becomes an entry in the outgoing list, and a received datagram is a parameter.
- The GUI, logging and debug output are not modelled.
- Clocks are a `now` parameter in seconds. The Java server counts milliseconds (a 5000 ms timeout); the model uses the C server's seconds with PEER_TIMEOUT = 5.
- C allocation failures (malloc, tsearch) are a parameter of the operations that allocate. The Java server never fails there.
- The clients and sessions linked lists and search trees are replaced by maps. The order in which clean_dead_clients walks the list does not change its result.
- Connections.CompareSessionsIsOrder: the C code compares the peers' memory addresses; the model compares client identities as numbers.
- Connections.Connection.UpdateTime: the Java `int` counter nbTries wraps at 2^31, which the model writes out with Rendezvous.Inc32.
- Older copies of the same sources are not modelled: earlier versions of CampagnolServer.java, the non-trunk MsgServStruct.java, and the other client source trees.
- Fifo.FifoBio.Read and Fifo.FifoBio.Write: the waits on the condition variables become preconditions. Read needs a non-empty queue or a receive timeout; the wait without a timeout, and a wait that a later write would end, are not modelled. Write needs room unless drop-tail is on. Mutexes, threads and shutdown wake-ups are not modelled.
- Fifo.FifoBio.constructor: a malloc failure in fifo_allocate is not modelled. In fifo_write, whether the slot can grow is a parameter `grows`.
- Rendezvous.Handle: a HELLO from a timed-out client asking for another VPN IP follows the corrected Rendezvous.HelloRegistered (first Findings row): when a live client holds that IP the model replies NOK and leaves the stale client removed, while the Java server registers it and replies OK and the C server replies OK but keeps the live holder under that IP in its VPN tree (Rendezvous.HelloRegisteredAsWrittenInC).
- Server.RdvServer.HandleHelloRegistered: computes the corrected Rendezvous.HelloRegistered, not the re-registration the Java server (Rendezvous.HelloRegisteredAsWritten) and the C server (Rendezvous.HelloRegisteredAsWrittenInC) perform.
- Server.RdvServer.HandlePacket: dispatches a registered client's HELLO to the corrected re-registration, as Rendezvous.Handle does.
- RendezvousLemmas.HandleKeepsInv: holds of the corrected handler only; the handler as written breaks the index agreement, as RendezvousLemmas.ReRegisterAsWrittenBreaksIndexes shows.
- Rendezvous.Receive: follows the C server, which ignores every datagram whose length is not sizeof(message_t). The Java server reads into an 11-byte buffer, so it truncates a longer datagram and handles its first 11 bytes; only shorter ones are ignored there.
- Configuration.NetworkSettings: uses the corrected CIDR check (second Findings row), so it refuses "10.0.0.0/+8" and "10.0.0.0/ 8", which the program accepts with length 8. On suffixes of figures both agree (Configuration.NetworkSettingsOnDigits).
- Communication.Readdress: recomputes the header checksum with the corrected Csum (third Findings row), where the program calls the one-fold compute_csum. The two agree when one fold leaves no carry (Communication.ReaddressAsProgram).
- Communication.ReaddressBroadcast: "the header passes the checksum check" holds of the corrected readdressing; the program's one-fold checksum can fail it when the fold carries.
- Communication.ComputeCsum: requires at most 0xffff bytes, so that the 32-bit sum in the C code cannot overflow.
- Communication.Readdress: the checksum is recomputed over the 20-byte IPv4 header only. Byte order (htonl/ntohs) is fixed as big-endian.
- Configuration.Ipv4Broadcast: its ensures describe the netmask and broadcast structurally. The meaning (same prefix, all host bits set) is proved in Configuration.Broadcast and Configuration.BroadcastBits.
- ConfigParser.GetInt, ConfigParser.GetUInt and ConfigParser.GetUShort: the sscanf conversion is a parameter `scan`. strtol overflow is not modelled. parser_getfloat and the float rate options are left out because the model has no floating point.
- ConfigIO: parser_write is covered only through the escaping function and the quoted-value round trip. The older parser_read in config_parser.c and expand_token are not modelled.
- OptionParser.Getopt: requires a non-empty options string, because the Java code reads optionsArray[0]. A null long-options argument is modelled as an absent option list.
- TunArgs.ReplaceArgs: requires that no '%' is the last character (Scannable). The C loop reads the character after '%' unconditionally, so a trailing '%' reads past the end of the string.
- ConfigParser.RemoveOptionIn: models the corrected removal; the C code hands the bare option name to tdelete, which parser_compare reads as an item, so an existing option reaches undefined behaviour (ConfigParser.RemoveOptionAsWritten, Findings).
- ConfigParser.RemoveSectionIn: models the corrected removal; the C code hands the bare section name to tdelete, so an existing section reaches undefined behaviour (ConfigParser.RemoveSectionAsWritten, Findings).
- ConfigParser.Parser.RemoveOption: follows the corrected ConfigParser.RemoveOptionIn, not the undefined behaviour of the code as written.
- ConfigParser.Parser.RemoveSection: follows the corrected ConfigParser.RemoveSectionIn, not the undefined behaviour of the code as written.
- Configuration.ClientSettings: the verify_depth check (client/configuration.c:528-543, refused when not positive) is not modelled; only tun_mtu, fifo_size, timeout, max_clients and keepalive are.
- The client's transmit queue length, rate limiters and the rest of the client's configuration file handling are not modelled.

## Findings

| source | as written | input that shows it | evidently intended | confidence | as-written member | corrected member |
|---|---|---|---|---|---|---|
| rdvserver/net/sourceforge/campagnol/CampagnolServer.java:283-294 | a HELLO from a registered, timed-out address that claims a different VPN IP removes the old client and registers the new one without checking who holds that VPN IP; the VPN map entry of the live holder is overwritten | client A (VPN IP VA) has timed out; client B is live with VPN IP VB; A sends HELLO with VB. The address map then holds A and B, while the VPN map sends VB to A, so the two indexes disagree | the same holder and capacity checks as a HELLO from a new address | not executed | RendezvousLemmas.ReRegisterAsWrittenBreaksIndexes | RendezvousLemmas.HelloRegisteredKeepsInv |
| client/configuration.c:464-477 | the CIDR suffix after '/' is only checked to be at most two characters and is then converted with strtol, which accepts a leading sign or blank | network "10.0.0.0/+8" is accepted with prefix length 8 | the suffix is one or two decimal digits only | not executed | Configuration.CidrSignAccepted | Configuration.CidrLengthAccepts |
| trunk/client/communication.c:129-132 | compute_csum folds the 32-bit sum into 16 bits once, so the carry of that fold is lost | on a big-endian host, bytes ff ff ff ff 00 01: the word sum is 0x1ffff; one fold gives 0x10000, whose complement truncates to 0xffff; RFC 1071 section 4.1 gives 0xfffe (on a little-endian host, bytes ff ff ff ff 01 00 show the same loss) | fold until no carry remains, as in section 4.1 of RFC 1071 | not executed | Communication.CsumAsWrittenLosesCarry | Communication.CsumVerifies |
| common/config_parser.c:526-549 | parser_remove_option passes the bare option string to tdelete (line 545), while parser_compare casts both arguments to an item and reads its name field | parser_set("client", "fifo_size", "10") followed by parser_remove_option("client", "fifo_size"): tdelete compares a char pointer as an item, which is undefined behaviour | pass &tmp_item to tdelete, as tfind above it does | not executed | ConfigParser.RemoveOptionAfterSetAsWritten | ConfigParser.RemoveOptionIn |
| common/config_parser.c:554-566 | parser_remove_section passes the bare section string to tdelete (line 564) with the same comparator | parser_set("client", "fifo_size", "10") followed by parser_remove_section("client") | pass &tmp_item to tdelete | not executed | ConfigParser.RemoveSectionAfterSetAsWritten | ConfigParser.RemoveSectionIn |
| rdvserver/server.c:226-250 | a HELLO from a registered, timed-out address that claims a different VPN IP removes the old client and calls add_client, whose tsearch in the VPN tree finds the live holder and keeps it; the address tree gets the newcomer and OK is sent | client A (VPN IP VA) has timed out; client B is live with VPN IP VB; A sends HELLO with VB. The address tree holds A with VB, while the VPN tree still sends VB to B, so A cannot be found by its VPN IP | the same holder and capacity checks as a HELLO from a new address | not executed | RendezvousLemmas.ReRegisterAsWrittenInCBreaksIndexes | RendezvousLemmas.HelloRegisteredKeepsInv |
