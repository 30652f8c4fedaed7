# A verified model of the TP_AUTOBUSES bus-ticket office

TP_AUTOBUSES is a bus-ticket office that exists in three generations:

- **The server** (`Server/`). A request handler (`OfficeServer`) answers one-shot calls. It assigns and deallocates seats, searches travels, reports who sits in a seat and searches travels per date. A connection registry (`OfficesServer`) holds the push channels of the connected offices. It broadcasts seat changes to the offices of the same company and sweeps dead channels. A tenant map (`SalesDesks`) maps each company to its store (`SalesDesk`). Each store keeps passengers, travels and the travels' seat tables. The push channel itself (`SalesDeskPushConnection`) frames its requests with an `end` line.
- **The client** (`Client/` and `src/Model/Cloud/`). The client agent (`Client`) makes one-shot calls, reads EOF-terminated replies, and runs the long-polling loop. That loop reads `end`-terminated server requests and answers `test` probes. The wire vocabulary is `CommunicationPrimitive`. The client's read-only `Travel` record and its travel-label helpers also belong here.
- **The legacy desktop office** (`src/`). It has an array store with index counters (`src/Office.java`) and a list store (`src/Model/Office.java`). Its seat-plan renderer, status-file reader and set store live in `src/Model/SalesDesk.java`. The two travel record classes use comma and semicolon separators and hold `Pair` seat tables. There are also the passenger record, the seat-error message tables and the date helpers of the top panel.

Each source file is one Dafny module, written in the form the source takes:

- Values and pure code (tokens, records, codecs, messages, labels, calendars) become datatypes, functions and lemmas.
- Objects whose fields change (seat tables, stores, sockets, the registry, the client agent) become classes. Their methods carry `modifies` clauses and loop invariants, and are proved against specification functions.

Sockets are modelled as two line queues, an input and an output. Each queue also says what happens when the input runs dry: the peer closed, or the read fails. Files are sequences of lines. Random choices, clocks and each send's success are parameters.

| file | models |
|---|---|
| `outcomes.dfy` | `Option`, the Java exceptions that matter, `Result` |
| `text.dfy` | Java string helpers: `String.split`, `Scanner` tokens, `Integer.parseInt`/`toString`, `%02d` |
| `channels.dfy` | sockets as line queues, the count-down latch |
| `communication_primitive.dfy` | `src/Model/Cloud/CommunicationPrimitive.java` |
| `push_connection.dfy` | `Server/src/Control/SalesDeskPushConnection.java` |
| `client.dfy` | `src/Model/Cloud/Client.java` |
| `office_server.dfy` | `Server/src/Control/OfficeServer.java` |
| `offices_server.dfy` | `Server/src/Control/OfficesServer.java` |
| `sales_desks.dfy` | `Server/src/Model/SalesDesks.java` |
| `server_sales_desk.dfy` | `Server/src/Model/SalesDesk.java` |
| `server_travel.dfy`, `server_passenger.dfy` | `Server/src/Model/Travel.java`, `Server/src/Model/Passenger.java` |
| `client_travel.dfy` | `Client/src/Model/Travel.java` |
| `model_sales_desk.dfy` | `src/Model/SalesDesk.java` |
| `model_office.dfy`, `legacy_office.dfy` | `src/Model/Office.java`, `src/Office.java` |
| `model_travel.dfy`, `legacy_travel.dfy` | `src/Model/Travel.java`, `src/Travel.java` |
| `model_passenger.dfy`, `pair.dfy` | `src/Model/Passenger.java`, `src/Model/Pair.java` and `src/Pair.java` |
| `seats_read_exception.dfy` | both `SeatsReadException` message tables |
| `top_panel.dfy` | days in a month and the day list of `src/View/TopPanel.java` |
| `client_north_panel.dfy`, `legacy_north_panel.dfy`, `travel_order.dfy` | the label, parsing and sorting helpers of the two `NorthPanel` files |

Where the informal description of the system and the code disagree, the model follows the code:

- An unknown wire token raises `InputMismatchException`; it is not mapped to `nok`.
- The server store's fields are static, so as written every company's desk shares one store. The tenant map is modelled with the one store per company that the company-to-desk map intends, the corrected behaviour of the Findings row (see Findings and "Left out").
- `SalesDesks.assign` answers `true` whenever the company exists.
- The client panel lists travel labels with the 12-hour `HOUR`, as the code writes them; the hour-of-day label of Findings is stated beside it.

## Model

| member | source | states |
|---|---|---|
| CommunicationPrimitive.ValuesComplete | src/Model/Cloud/CommunicationPrimitive.java:11-27 | every primitive is one of the sixteen enum constants |
| CommunicationPrimitive.AlternativesAreSymbols | src/Model/Cloud/CommunicationPrimitive.java:30-46 | the token pattern has sixteen alternatives, the i-th being the symbol of the i-th primitive |
| CommunicationPrimitive.SymbolInjective | src/Model/Cloud/CommunicationPrimitive.java:12-27 | no two primitives share a symbol |
| CommunicationPrimitive.SymbolIsWord | src/Model/Cloud/CommunicationPrimitive.java:12-46 | every symbol is a pattern alternative, non-empty, free of whitespace, and the if-chain maps it back to its primitive (also src/Model/Cloud/CommunicationPrimitive.java:118-121) |
| CommunicationPrimitive.SymbolLetters | src/Model/Cloud/CommunicationPrimitive.java:12-27 | symbols consist of lower-case letters and underscores only |
| CommunicationPrimitive.FromTokenOfSymbol | src/Model/Cloud/CommunicationPrimitive.java:64-111 | the if-chain takes each symbol, including `search_travel` versus `search_travels_per_date` and `ok` versus `nok`, to its own primitive |
| CommunicationPrimitive.AlternativeIsSymbol | src/Model/Cloud/CommunicationPrimitive.java:30-46 | a token that matches the pattern is mapped to the primitive whose symbol it is, so the final NOK branch is reached only by `nok` (also src/Model/Cloud/CommunicationPrimitive.java:64-111) |
| CommunicationPrimitive.NewPrimitiveOk | src/Model/Cloud/CommunicationPrimitive.java:60-112 | a line reads as primitive p exactly when its first whitespace-delimited token is p's symbol; later tokens are not examined |
| CommunicationPrimitive.NewPrimitiveErr | src/Model/Cloud/CommunicationPrimitive.java:60-62 | a blank line raises NoSuchElementException and a first token that is no symbol raises InputMismatchException, in both directions |
| CommunicationPrimitive.NewPrimitiveOfSymbol | src/Model/Cloud/CommunicationPrimitive.java:60-121 | round trip: the symbol of p, alone or followed by whitespace and anything, reads back as p |
| PushConnection.RequestFrameReadsBack | Server/src/Control/SalesDeskPushConnection.java:70-81 | the first line `send` writes reads back as the request primitive |
| PushConnection.ExchangeWrites | Server/src/Control/SalesDeskPushConnection.java:70-120 | on an open socket an exchange sets the timeout and writes the symbol, the parameters line only when there is one, and `end`; on a closed one it raises IOException and changes nothing |
| PushConnection.ExchangePeerClosed | Server/src/Control/SalesDeskPushConnection.java:89-101 | a peer that closed without replying gives NOK and leaves the results untouched |
| PushConnection.ExchangeReply | Server/src/Control/SalesDeskPushConnection.java:89-120 | a reply line for p gives p, and the results become exactly the lines buffered after it, in order |
| PushConnection.ReceiveReply | Server/src/Control/SalesDeskPushConnection.java:89-102 | `receive` on a reply line for p clears the results and fills them with the rest of the buffered input, draining it |
| PushConnection.SalesDeskPushConnection.constructor | Server/src/Control/SalesDeskPushConnection.java:33-61 | the getters return the constructor's connection id, company id, socket and latch |
| PushConnection.SalesDeskPushConnection.Send | Server/src/Control/SalesDeskPushConnection.java:70-81 | the socket's new state is the old one with the timeout set and the request frame appended |
| PushConnection.SalesDeskPushConnection.Receive | Server/src/Control/SalesDeskPushConnection.java:89-102 | reply, results and socket state are those of the receive specification: NOK with results unchanged at end of stream, else the parsed primitive and the buffered lines |
| PushConnection.SalesDeskPushConnection.ReadBuffered | Server/src/Control/SalesDeskPushConnection.java:97-99 | the `ready` loop returns every buffered line in order and changes nothing else on the socket |
| PushConnection.SalesDeskPushConnection.SendRequest | Server/src/Control/SalesDeskPushConnection.java:113-120 | `send` followed by `receive`, as one exchange on this connection's socket |
| PushConnection.SalesDeskPushConnection.SendRequestWithoutResults | Server/src/Control/SalesDeskPushConnection.java:130-134 | the exchange with a fresh, dropped results list |
| PushConnection.SalesDeskPushConnection.SendBareRequest | Server/src/Control/SalesDeskPushConnection.java:143-147 | null parameters: only the symbol and `end` are written |
| PushConnection.SalesDeskPushConnection.EndConnection | Server/src/Control/SalesDeskPushConnection.java:153-159 | the socket is closed and the latch counted down, nothing else changes |
| PushConnection.ToStringSplits | Server/src/Control/SalesDeskPushConnection.java:165-167 | the text is company id, a space and connection id, and splits back into the two |
| Client.ResponseSpec | src/Model/Cloud/Client.java:70-79 | reading to end of stream only consumes input and leaves the socket open or closed as it was |
| Client.RequestSpec | src/Model/Cloud/Client.java:86-93 | a successful framed read consumes at least the `end` line |
| Client.ReceiveSpec | src/Model/Cloud/Client.java:102-123 | a successful receive consumes at least the primitive line |
| Client.HandleSpec | src/Model/Cloud/Client.java:107-122 | what follows the primitive line only consumes input |
| Client.ReceiveParsed | src/Model/Cloud/Client.java:104 | the first line is parsed as the primitive and the rest of the input is handled after it |
| Client.EndIndex | src/Model/Cloud/Client.java:89 | finds the first `end` line: no `end` before it, or none at all |
| Client.RequestSpecFraming | src/Model/Cloud/Client.java:86-93 | `receiveServerRequest` appends exactly the lines strictly before the first `end` and consumes it; without an `end` it consumes everything and fails (NullPointerException at end of stream, IOException otherwise) |
| Client.RequestSpecFramed | src/Model/Cloud/Client.java:86-93 | with the first `end` at index k, the k lines before it are appended and the input resumes after it |
| Client.RequestSpecUnframed | src/Model/Cloud/Client.java:86-93 | without an `end`, every line is appended and the final read fails |
| Client.RequestSpecAtEnd | src/Model/Cloud/Client.java:87-89 | an `end` first appends nothing; an empty input dereferences null or raises IOException |
| Client.RequestSpecStep | src/Model/Cloud/Client.java:89-92 | a line other than `end` is appended and reading goes on |
| Client.HandleFramedLine | src/Model/Cloud/Client.java:112-122 | a request line followed by `end` becomes the only result, and `ok` is written |
| Client.HandleFramedEmpty | src/Model/Cloud/Client.java:112-122 | a bare `end` frames no result, and `ok` is written |
| Client.PushReadBack | src/Model/Cloud/Client.java:102-123 | a push framed by the server's `send` is read back as the same primitive with its parameters line as the only result, answered with one `ok` |
| Client.TestProbeAnswered | src/Model/Cloud/Client.java:104-111 | a `test` probe consumes its `end` line, writes `ok`, returns TEST and leaves the results unchanged |
| Client.HandleTest | src/Model/Cloud/Client.java:107-111 | after `test`, exactly one more line is read and `ok` written |
| Client.LongPollReplies | src/Model/Cloud/Client.java:107-111 | in long polling a pushed request gets `ok` and then `ok` or `nok` from the listener, a probe gets one `ok`, and the loop goes on with the rest of the input (also src/Model/Cloud/Client.java:120,176-191) |
| Client.OneShotReply | src/Model/Cloud/Client.java:130-153 | a one-shot request returns the reply primitive with exactly the lines after it, writes the request and then `ok`, and closes the socket |
| Client.Client.constructor | src/Model/Cloud/Client.java:39-42 | records the server address and port; no socket yet |
| Client.Client.Send | src/Model/Cloud/Client.java:51-63 | a refused connection raises IOException; otherwise the fresh socket gets the timeout, the request symbol and the parameters line only when there is one |
| Client.Client.ReceiveServerResponse | src/Model/Cloud/Client.java:70-79 | the results and socket state are those of reading to end of stream, swallowing read errors |
| Client.Client.ReceiveServerRequest | src/Model/Cloud/Client.java:86-93 | the results and socket state are those of the `end`-framed read |
| Client.Client.Receive | src/Model/Cloud/Client.java:102-123 | reply, results and socket state are those of the receive specification |
| Client.Client.SendRequest | src/Model/Cloud/Client.java:143-153 | send, EOF-framed receive, then close the socket |
| Client.Client.SendRequestWithoutResults | src/Model/Cloud/Client.java:163-166 | the same with a fresh, dropped results list |
| Client.Client.SendLongPollingRequest | src/Model/Cloud/Client.java:176-191 | sends, then answers pushes until an exception ends the loop; the exception and socket state are those of the long-polling specification |
| OfficeServer.TravelOrNull | Server/src/Control/OfficeServer.java:119-127 | a travel line that does not parse (NoSuchElementException and its subclasses) gives null; any other exception escapes |
| OfficeServer.ReadAssignationCompany | Server/src/Control/OfficeServer.java:151 | the company of an assignation is the first line the desk sent |
| OfficeServer.ReadSeatQueryCompany | Server/src/Control/OfficeServer.java:177-224 | the company of a seat query is the first line the desk sent |
| OfficeServer.ReadTravelOfLine | Server/src/Control/OfficeServer.java:119-127 | a travel's `toString()` line reads back as that travel |
| OfficeServer.ReadIntOfLine | Server/src/Control/OfficeServer.java:154 | a seat number's decimal line reads back as that number |
| OfficeServer.ReadAssignationOfLines | Server/src/Control/OfficeServer.java:150-154 | the company, travel, passenger and seat lines of an `assign` request read back as exactly those arguments, leaving the rest unread |
| OfficeServer.ReadSeatQueryOfLines | Server/src/Control/OfficeServer.java:176-226 | the company, travel and seat lines of `deallocate` and `who_is_sitting` read back as those arguments |
| OfficeServer.ReadDateQueryOfLines | Server/src/Control/OfficeServer.java:245-249 | the company, year, month and day lines, in that order, read back as those arguments |
| OfficeServer.ReadSeatQueryShort | Server/src/Control/OfficeServer.java:176-179 | a request cut short escapes with NullPointerException when the travel line is missing (no line, or only the company) and with NumberFormatException when only the seat line is missing after a travel line that reads |
| OfficeServer.DisconnectReply | Server/src/Control/OfficeServer.java:91-101 | one line, `ok` when the id was registered and `nok` otherwise, then the connection closes; a null id escapes before anything is written |
| OfficeServer.RecordLines | Server/src/Control/OfficeServer.java:256-258 | one `toString()` line per travel, in order |
| OfficeServer.PerDateReplyParses | Server/src/Control/OfficeServer.java:253-259 | the reply is the `search_travels_per_date` header followed by one line per travel, each parsing back as its travel, in order |
| OfficeServer.WhoIsSitingReplyParses | Server/src/Control/OfficeServer.java:228-237 | the reply is the `who_is_sitting` header, then a line parsing back as the passenger exactly when somebody sits there, then the connection closes |
| OfficeServer.AssignReplyParses | Server/src/Control/OfficeServer.java:156-166 | a complete request gets the `assign` header, then the travel id exactly when the registry answered true; an incomplete one gets `nok` alone |
| OfficeServer.DeallocationReplyParses | Server/src/Control/OfficeServer.java:181-191 | the same shape with the `deallocate` header |
| OfficeServer.Caught | Server/src/Control/OfficeServer.java:305-309 | `run` swallows IOException and lets every other exception escape unchanged |
| OfficeServer.OfficeServer.constructor | Server/src/Control/OfficeServer.java:39-47 | the handler holds the registry and the socket it was given |
| OfficeServer.OfficeServer.ReadTravelFromInput | Server/src/Control/OfficeServer.java:119-127 | result and socket state are those of reading one travel line |
| OfficeServer.OfficeServer.ReadPassengerFromInput | Server/src/Control/OfficeServer.java:135-143 | result and socket state are those of reading one passenger line, null for fewer than three fields |
| OfficeServer.OfficeServer.ReadInt | Server/src/Control/OfficeServer.java:154 | result and socket state are those of `Integer.parseInt(readLine())` |
| OfficeServer.OfficeServer.ReadAssignationArgs | Server/src/Control/OfficeServer.java:151-154 | the four reads in order; the first exception stops them |
| OfficeServer.OfficeServer.ReadSeatQueryArgs | Server/src/Control/OfficeServer.java:177-226 | the three reads in order |
| OfficeServer.OfficeServer.ReadTravelQueryArgs | Server/src/Control/OfficeServer.java:202-203 | the company and travel-id reads |
| OfficeServer.OfficeServer.ReadDateQueryArgs | Server/src/Control/OfficeServer.java:246-249 | the company, then year, month and day |
| OfficeServer.OfficeServer.Refuse | Server/src/Control/OfficeServer.java:164-168 | writes `nok` and closes |
| OfficeServer.OfficeServer.AssignationRequest | Server/src/Control/OfficeServer.java:150-169 | after the reads, the socket receives the assignation reply for the registry's answer and is closed; the connections are unchanged |
| OfficeServer.OfficeServer.Assignment | Server/src/Control/OfficeServer.java:156-168 | `nok` for a null argument; otherwise the header, the registry's `assign`, and the travel id when it answered true |
| OfficeServer.OfficeServer.DeallocationRequest | Server/src/Control/OfficeServer.java:176-194 | the same for `deallocate` |
| OfficeServer.OfficeServer.Deallocation | Server/src/Control/OfficeServer.java:181-193 | `nok` for a null argument; otherwise the header, the registry's `deallocate`, and the travel id when it answered true |
| OfficeServer.OfficeServer.WhoIsSitingRequest | Server/src/Control/OfficeServer.java:223-238 | the reads, then the `who_is_sitting` reply; nothing in the registry changes |
| OfficeServer.OfficeServer.Sitting | Server/src/Control/OfficeServer.java:228-237 | the header, then the passenger's line when somebody sits there, then close |
| OfficeServer.OfficeServer.SearchTravelRequest | Server/src/Control/OfficeServer.java:201-216 | the reads, then `search_travel` and the travel's line only if the company has it; nothing changes |
| OfficeServer.OfficeServer.SearchTravelsPerDateRequest | Server/src/Control/OfficeServer.java:245-264 | the reads, then the per-date reply; nothing changes |
| OfficeServer.OfficeServer.PerDate | Server/src/Control/OfficeServer.java:251-263 | `nok` for a null company, else the header and one line per travel of that day |
| OfficeServer.OfficeServer.PrintRecords | Server/src/Control/OfficeServer.java:256-258 | writes one line per travel, in order |
| OfficeServer.OfficeServer.DisconnectPushOffice | Server/src/Control/OfficeServer.java:91-101 | reads an id; `ok` and exactly that entry removed (its socket closed, latch counted down) when registered, `nok` and no change otherwise; then close |
| OfficeServer.OfficeServer.Disconnection | Server/src/Control/OfficeServer.java:94-100 | the reply and registry change once the id line is read |
| OfficeServer.OfficeServer.PushConnectionOffice | Server/src/Control/OfficeServer.java:66-84 | sends `new_conection_id` and a drawn id; registers the connection (creating a desk if needed) only on an `ok` reply and only when the desk loads, otherwise the loading exception propagates with nothing filed; any other reply ends the connection unregistered; a company line missing at end of stream still sends the id, reads `nok` and ends the connection normally |
| OfficeServer.OfficeServer.Connection | Server/src/Control/OfficeServer.java:68-83 | the exchange and registration once the company is read: an `ok` reply implies a company was read; the connection is filed only when the company's desk exists or loads without exception |
| OfficeServer.OfficeServer.Run | Server/src/Control/OfficeServer.java:271-310 | parses the request line; an unreadable line, a parse error or a primitive with no case writes nothing and changes nothing; `search_travel`, `who_is_sitting` and `search_travels_per_date` get their handler's reads and reply, with nothing else changed; an IOException never escapes |
| OfficeServer.OfficeServer.Handle | Server/src/Control/OfficeServer.java:276-303 | the switch: each of the seven handled primitives gets exactly its own handler's reads, reply and registry change (the registry's answer, the pushes of `assign` and `deallocate`, the removal of `disconnect_push`, the filing of `connect_push`); any other primitive writes and changes nothing |
| ConnectionIds.PossibleCharsAreIdChars | Server/src/Control/OfficesServer.java:172 | the alphabet has 46 characters, each a digit or a lower-case letter |
| ConnectionIds.Drawn | Server/src/Control/OfficesServer.java:171-180 | the id the six draws spell has exactly six characters of the alphabet (also Server/src/Control/OfficesServer.java:30) |
| OfficesServer.EndLink | Server/src/Control/SalesDeskPushConnection.java:153-159 | ending a connection closes its socket and counts its latch down |
| OfficesServer.NotifyFrom | Server/src/Control/OfficesServer.java:102-113 | the fan-out keeps the number of connections; what it sends and spares: NotifyOnlyCompany, NotifyReachesCompany, NotifyStops |
| OfficesServer.NotifyFromStep | Server/src/Control/OfficesServer.java:105-111 | one position of the fan-out: an exception ends it, otherwise it goes on from the next connection |
| OfficesServer.NotifyOnlyCompany | Server/src/Control/OfficesServer.java:105-106 | the fan-out leaves every connection of another company, and every one before the start, untouched |
| OfficesServer.NotifyReachesCompany | Server/src/Control/OfficesServer.java:105-111 | a fan-out that completes wrote the request frame with the parameters line to every connection of the company, each of which was open |
| OfficesServer.NotifyStops | Server/src/Control/OfficesServer.java:102-113 | a failed fan-out stopped at a connection of the company, or at one with no company, and every connection after it is untouched |
| OfficesServer.SweepFrom | Server/src/Control/OfficesServer.java:147-162 | the sweep keeps the number of positions; which connections it drops: SweepDropsClosed |
| OfficesServer.SweepFromStep | Server/src/Control/OfficesServer.java:147-162 | a probe that does not throw moves the sweep on, with its id removed when the probe dropped it |
| OfficesServer.ProbeCases | Server/src/Control/OfficesServer.java:148-161 | a probe keeps a connection exactly when its socket stays open, and a removed connection has its latch counted down |
| OfficesServer.ProbeKeepsClosedPeer | Server/src/Control/OfficesServer.java:148-150 | a desk that closed its end without replying reads as NOK and is kept (also Server/src/Control/SalesDeskPushConnection.java:89-101) |
| OfficesServer.ProbeDropsFailedRead | Server/src/Control/OfficesServer.java:151-160 | a desk whose read fails is removed and ended |
| OfficesServer.SweepDropsClosed | Server/src/Control/OfficesServer.java:143-165 | a sweep removes only ids it has reached; when it completes an id is removed exactly when its connection ended closed, and the others keep their latches |
| OfficesServer.CompaniesAt | Server/src/Control/OfficesServer.java:105-106 | the companies of the registered connections in iteration order |
| OfficesServer.LinksAt | Server/src/Control/OfficesServer.java:105-147 | the socket states and latch counts of the registered connections in iteration order |
| OfficesServer.ExchangeAt | Server/src/Control/OfficesServer.java:107-110 | one exchange on the connection at a position; every other connection is untouched |
| OfficesServer.EndAt | Server/src/Control/OfficesServer.java:157 | ends the connection at a position; every other connection is untouched |
| OfficesServer.NotifyAll | Server/src/Control/OfficesServer.java:102-113 | the loop over the registered connections does exactly the fan-out specification |
| OfficesServer.PushAt | Server/src/Control/OfficesServer.java:106-111 | one position of the fan-out loop |
| OfficesServer.ProbeAt | Server/src/Control/OfficesServer.java:148-161 | one probe of the sweep loop, ending the connection on an IOException |
| OfficesServer.SweepAll | Server/src/Control/OfficesServer.java:147-162 | the sweep loop does exactly the sweep specification and unfiles the removed ids |
| OfficesServer.Notified | Server/src/Control/OfficesServer.java:236-237 | true once every push went out, otherwise the exception that stopped them |
| OfficesServer.SeparateAddDesk | Server/src/Control/OfficesServer.java:189-191 | adding a fresh desk keeps registry, desks and connections separate objects |
| OfficesServer.SeparateShrink | Server/src/Control/OfficesServer.java:155-211 | unfiling connections keeps the objects separate |
| OfficesServer.SeparateFile | Server/src/Control/OfficesServer.java:193 | filing a connection keeps the objects separate |
| OfficesServer.OfficesServer.constructor | Server/src/Control/OfficesServer.java:52-68 | the registry starts with no connections over the given tenant map |
| OfficesServer.OfficesServer.CreateConnectionID | Server/src/Control/OfficesServer.java:171-180 | six characters from the 46-character alphabet, the k-th at the k-th draw; ids in use are not consulted |
| OfficesServer.OfficesServer.NewPushConnection | Server/src/Control/OfficesServer.java:187-194 | a desk is created only when the company has none; an exception loading it propagates and files nothing; otherwise the connection is filed under its id and other entries and desks are unchanged |
| OfficesServer.OfficesServer.EnsureDesk | Server/src/Control/OfficesServer.java:188-191 | when the company has no desk, the answer is the loading outcome of the store files; on success a desk exists afterwards, on an exception nothing is filed; existing desks are kept |
| OfficesServer.OfficesServer.FileConnection | Server/src/Control/OfficesServer.java:193 | the map gains exactly that entry |
| OfficesServer.OfficesServer.RemovePushConnection | Server/src/Control/OfficesServer.java:203-214 | an absent id gives false and no change; a present one is ended, exactly that entry removed, and true returned |
| OfficesServer.OfficesServer.Notify | Server/src/Control/OfficesServer.java:102-113 | sends once to each connection of the company and to no other; the first exception (an IOException, or a NullPointerException on a connection without company) aborts the rest; desks are untouched |
| OfficesServer.OfficesServer.Assign | Server/src/Control/OfficesServer.java:229-238 | false and nobody notified when the tenant map answers false; otherwise the company's desks are pushed `assign` with the travel id and true is returned; other companies' desks are untouched |
| OfficesServer.OfficesServer.Deallocate | Server/src/Control/OfficesServer.java:249-256 | the same with `deallocate` |
| OfficesServer.OfficesServer.Sweep | Server/src/Control/OfficesServer.java:143-165 | one timer run: every connection is probed with `test`; those whose probe throws IOException are unfiled and ended, the rest stay |
| OfficesServer.OfficesServer.SearchPassenger | Server/src/Control/OfficesServer.java:265-267 | the tenant map's answer: a passenger with that DNI, or none exactly when the company has no desk or no such passenger |
| OfficesServer.OfficesServer.SearchTravel | Server/src/Control/OfficesServer.java:276-278 | the tenant map's answer: a travel with that id, or none |
| OfficesServer.OfficesServer.WhoIsSitting | Server/src/Control/OfficesServer.java:288-290 | the tenant map's answer: none for an unknown company, else a passenger of that desk |
| OfficesServer.OfficesServer.SearchTravelsPerDate | Server/src/Control/OfficesServer.java:299-301 | null exactly for an unknown company, else travels on that day only |
| SalesDesks.AssignAnswersTrue | Server/src/Model/SalesDesks.java:57-59 | a known company's `assign` answers true for every seat from 0 on, whether the seat was free, taken or above the count; only a free seat within the count changes the table; a negative seat is an ArrayIndexOutOfBoundsException (also Server/src/Model/SalesDesk.java:122-134) |
| SalesDesks.DeallocateAnswerCases | Server/src/Model/SalesDesks.java:76-78 | a free seat, or a DNI the store no longer has, makes `whoIsSited` answer null, which `deletePassenger` dereferences; a seat outside the count is an ArrayIndexOutOfBoundsException (also Server/src/Model/SalesDesk.java:71,164-169) |
| SalesDesks.DesksValidAdd | Server/src/Model/SalesDesks.java:28-30 | filing a desk that shares nothing with the others keeps the company map valid |
| SalesDesks.SalesDesks.constructor | Server/src/Model/SalesDesks.java:18-21 | the map starts with no desk |
| SalesDesks.SalesDesks.NewDesk | Server/src/Model/SalesDesks.java:28-40 | the answer is the loading outcome of the store files; on success `existsDesk(c)` holds and a desk loaded from the files replaces any desk of c, on an exception nothing is filed; other companies' desks are unchanged |
| SalesDesks.SalesDesks.File | Server/src/Model/SalesDesks.java:29 | the map gains exactly that entry |
| SalesDesks.SalesDesks.Assign | Server/src/Model/SalesDesks.java:51-60 | an unknown company gives false and no change; a known one adds the passenger when its DNI is new, tries the seat, and answers true even when the seat stayed as it was; no other company's desk changes |
| SalesDesks.SalesDesks.Deallocate | Server/src/Model/SalesDesks.java:70-79 | an unknown company gives false; a known one deletes the seated passenger and frees the seat; on a free seat `deletePassenger` dereferences null and nothing changes; no other desk changes |
| SalesDesks.SalesDesks.SearchPassenger | Server/src/Model/SalesDesks.java:88-95 | null for an unknown company, else a passenger of that desk with the DNI, null exactly when there is none |
| SalesDesks.SalesDesks.SearchTravel | Server/src/Model/SalesDesks.java:104-111 | null for an unknown company, else a travel of that desk with the id, null exactly when there is none |
| SalesDesks.SalesDesks.WhoIsSitting | Server/src/Model/SalesDesks.java:121-128 | null for an unknown company, else the desk's `whoIsSited` |
| SalesDesks.SalesDesks.SearchTravelsPerDate | Server/src/Model/SalesDesks.java:137-144 | null exactly for an unknown company, else exactly the desk's travels on that day |
| SalesDesks.AssignOnDesk | Server/src/Model/SalesDesks.java:57-59 | the desk's passengers gain p only when its DNI is new, and the seat is tried |
| SalesDesks.DeallocateOnDesk | Server/src/Model/SalesDesks.java:76-78 | the seated passenger is deleted and the seat freed; an exception changes nothing |
| SalesDesks.SharedNewDesk | Server/src/Model/SalesDesk.java:20-36 | as written, a new desk reloads the one static passenger set for every company |
| SalesDesks.SharedStoreLeaks | Server/src/Model/SalesDesk.java:20 | as written, a passenger added through one company's desk is found through another company's desk (also Server/src/Model/SalesDesk.java:50-52,90-97) |
| SalesDesks.SharedNewDeskResets | Server/src/Model/SalesDesk.java:34-41 | as written, opening a desk for one company replaces what every other company's desk holds by the file contents |
| SalesDesks.DesksIsolated | Server/src/Model/SalesDesks.java:28-30 | with a store per company, a passenger added for one company stays unknown to another (also Server/src/Model/SalesDesks.java:51-59,88-95) |
| ServerSalesDesk.FindPassenger | Server/src/Model/SalesDesk.java:90-97 | a passenger with an equal DNI, or null exactly when none has it |
| ServerSalesDesk.FindTravel | Server/src/Model/SalesDesk.java:105-112 | a travel with an equal id, or null exactly when none has it |
| ServerSalesDesk.AddToPassengers | Server/src/Model/SalesDesk.java:52 | the hash set adds p unless an element with the same DNI and name is already there |
| ServerSalesDesk.RemoveFromPassengers | Server/src/Model/SalesDesk.java:72 | the hash set removes exactly the elements equal to p in its bucket |
| ServerSalesDesk.OnDate | Server/src/Model/SalesDesk.java:314-328 | exactly the travels whose day, month and year are the given ones |
| ServerSalesDesk.AssignSeatCases | Server/src/Model/SalesDesk.java:122-134 | a free seat within the count gets the DNI and true; an occupied seat or one above the count gives false and no change; a negative seat is an ArrayIndexOutOfBoundsException (also Server/src/Model/Travel.java:157-163,185-190) |
| ServerSalesDesk.DeallocateSeatCases | Server/src/Model/SalesDesk.java:143-155 | an occupied seat is freed with true; a free seat gives false and no change; a seat above the count is not free, so the write goes past the table (also Server/src/Model/Travel.java:171-177,185-190) |
| ServerSalesDesk.LoadEntriesUnfold | Server/src/Model/SalesDesk.java:292-305 | one element of the status line is read, and the first failure stops the reading |
| ServerSalesDesk.LoadEntryOfEntry | Server/src/Model/SalesDesk.java:295-301 | the `seat-dni` element written for a seat is read back into the empty slot (also Server/src/Model/Travel.java:139-148) |
| ServerSalesDesk.ClashReportedAsSeat | Server/src/Model/SalesDesk.java:299-301 | an element for a taken seat is reported with code `SEAT` and the table is left alone |
| ServerSalesDesk.ClashReportedAsTravelAsWritten | Server/src/Model/SalesDesk.java:298-304 | as written, that `SEAT` exception is caught as a NumberFormatException and replaced by code `TRAVEL` with the element (also Server/src/Model/SeatsReadException.java:3) |
| ServerSalesDesk.EntryScans | Server/src/Model/SalesDesk.java:295-299 | an element splits at `-` into its seat, read back as an int, and its DNI |
| ServerSalesDesk.LoadEntriesRestores | Server/src/Model/SalesDesk.java:286-306 | the elements of seats 1 up to k load exactly those seats into an empty table |
| ServerSalesDesk.StatusLineLoadsBack | Server/src/Model/SalesDesk.java:286-306 | round trip: the status line `saveTravelStatus` writes, loaded into an empty table, gives the table back (also Server/src/Model/Travel.java:139-148) |
| ServerSalesDesk.LoadStatusLine | Server/src/Model/SalesDesk.java:289-292 | loading a status line skips the id and loads its elements |
| ServerSalesDesk.FindPassengerSnoc | Server/src/Model/SalesDesk.java:51-97 | after a passenger with a new DNI is added, searching its DNI finds it |
| ServerSalesDesk.IndexOfId | Server/src/Model/SalesDesk.java:267-271 | the first travel whose id equals the line's, or none |
| ServerSalesDesk.ApplyStatusLine | Server/src/Model/SalesDesk.java:266-272 | a status line is loaded into the first travel with its id only; the other tables stay |
| ServerSalesDesk.ApplyStatusLines | Server/src/Model/SalesDesk.java:261-278 | the lines in order, the first exception stopping the reading |
| ServerSalesDesk.ApplyStatusLinesStep | Server/src/Model/SalesDesk.java:265-274 | one more line of the status file |
| ServerSalesDesk.StatusLineForUnknownTravel | Server/src/Model/SalesDesk.java:266-272 | a line whose id no travel has changes nothing |
| ServerSalesDesk.StatusLines | Server/src/Model/SalesDesk.java:192-199 | one status line per travel, in iteration order |
| ServerSalesDesk.StatusLineApplies | Server/src/Model/SalesDesk.java:265-272 | the k-th status line lands in the k-th travel and fills its table |
| ServerSalesDesk.StatusLinesRestore | Server/src/Model/SalesDesk.java:261-278 | the status lines from k on complete the restoring of every table |
| ServerSalesDesk.StatusFileLoadsBack | Server/src/Model/SalesDesk.java:261-278 | round trip: the status file the store writes, read into freshly read travels, gives every table back (also Server/src/Model/SalesDesk.java:192-199) |
| ServerSalesDesk.PassengerLines | Server/src/Model/SalesDesk.java:177-184 | one `save` line per passenger, in iteration order |
| ServerSalesDesk.PassengerLinesRestore | Server/src/Model/SalesDesk.java:206-227 | reading the passenger lines from k on completes the set |
| ServerSalesDesk.ReadPassengerLine | Server/src/Model/SalesDesk.java:211-219 | the line of passenger k parses back to it and is added after the ones before it |
| ServerSalesDesk.PassengerFileLoadsBack | Server/src/Model/SalesDesk.java:177-227 | round trip: reading the passengers file the store wrote gives the same passengers in the same order |
| ServerSalesDesk.ReadTravelsStored | Server/src/Model/SalesDesk.java:234-254 | reading travels keeps what a hash set can hold: no duplicates and allocatable seat counts |
| ServerSalesDesk.ReadTravelLineStored | Server/src/Model/SalesDesk.java:239-246 | one line read keeps that invariant |
| ServerSalesDesk.SalesDesk.constructor | Server/src/Model/SalesDesk.java:34-38 | the store holds the given passengers and travels |
| ServerSalesDesk.SalesDesk.AddPassenger | Server/src/Model/SalesDesk.java:50-62 | a known DNI gives false and no change; a new passenger is appended and then found by `searchPassenger`, and the answer is false only when saving fails |
| ServerSalesDesk.SalesDesk.DeletePassenger | Server/src/Model/SalesDesk.java:70-82 | null is dereferenced; an absent DNI gives false and no change; otherwise the passenger is removed |
| ServerSalesDesk.SalesDesk.AssignSeat | Server/src/Model/SalesDesk.java:122-134 | an unknown travel is dereferenced as null; otherwise assigns only when `isSeatFree` holds |
| ServerSalesDesk.SalesDesk.DeallocateSeat | Server/src/Model/SalesDesk.java:143-155 | an unknown travel is dereferenced as null; otherwise frees only when `isSeatFree` fails |
| ServerSalesDesk.SalesDesk.WhoIsSited | Server/src/Model/SalesDesk.java:164-169 | the passenger whose DNI the seat holds, null for a free seat, a NullPointerException for an unknown travel |
| ServerSalesDesk.SalesDesk.LoadPassengersIntoTravel | Server/src/Model/SalesDesk.java:286-306 | the loop does exactly the line loader, with the `SEAT` code kept for a clash |
| ServerSalesDesk.SalesDesk.SavePassengers | Server/src/Model/SalesDesk.java:177-184 | the lines written are the passenger lines |
| ServerSalesDesk.SalesDesk.SaveTravelsStatus | Server/src/Model/SalesDesk.java:192-199 | the lines written are the status lines of the travels |
| ServerSalesDesk.SalesDesk.ReadTravelsStatus | Server/src/Model/SalesDesk.java:261-278 | the tables afterwards are those of applying the status lines in order |
| ServerSalesDesk.SalesDesk.ReadStatusLine | Server/src/Model/SalesDesk.java:266-272 | the body of that loop for one line |
| ServerSalesDesk.BuildTravels | Server/src/Model/SalesDesk.java:240 | one fresh travel with an all-empty seat table per record, in order (also Server/src/Model/Travel.java:36-48) |
| ServerSalesDesk.ReadTravels | Server/src/Model/SalesDesk.java:234-254 | the travels are those the reading specification keeps, each with a fresh empty table |
| ServerSalesDesk.EmptySeatTables | Server/src/Model/Travel.java:46-47 | the tables of freshly built travels are all empty |
| ServerSalesDesk.ReadPassengers | Server/src/Model/SalesDesk.java:206-227 | the passengers of the lines that parse, the others skipped |
| ServerSalesDesk.NewSalesDesk | Server/src/Model/SalesDesk.java:34-42 | fresh sets, then travels, passengers and seat status read in that order; an exception leaves what was read so far; the exception is `LoadOutcome` of the files |
| ServerTravel.ParseDate | Server/src/Model/Travel.java:57-64 | five ints are read in the order day, month, year, hour, minute; a missing or non-int token is a NoSuchElementException (InputMismatch included) |
| ServerTravel.ParseRecord | Server/src/Model/Travel.java:36-43 | the line constructor's fields; any failure is a NoSuchElementException |
| ServerTravel.SeatsNumber | Server/src/Model/Travel.java:46-47 | the product of the two `x`-separated ints plus one, kept within 32-bit int range, or NoSuchElementException |
| ServerTravel.SizeTable | Server/src/Model/Travel.java:46-48 | the seat count whose table of `seatsNumber + 1` slots can be allocated, or NegativeArraySizeException, or the distribution's own failure |
| ServerTravel.ParseFormatRecord | Server/src/Model/Travel.java:36-48 | the `toString()` line of a well-formed record is parsed back to that record (also Server/src/Model/Travel.java:121-132) |
| ServerTravel.ScanFormatRecord | Server/src/Model/Travel.java:121-132 | the `,` scanner finds exactly the ten fields `toString()` writes (also Server/src/Model/Travel.java:37) |
| ServerTravel.ParseDateOfFields | Server/src/Model/Travel.java:57-64 | the five date fields `toString()` writes read back as the date (also Server/src/Model/Travel.java:125-129) |
| ServerTravel.ParseDateOfInts | Server/src/Model/Travel.java:57-64 | five written ints from a position on read back as the date they spell |
| ServerTravel.IsSeatFreeCases | Server/src/Model/Travel.java:185-190 | free exactly for an empty slot within the seat count; an exception exactly for a negative seat |
| ServerTravel.WhoIsSitedCases | Server/src/Model/Travel.java:199-204 | within the seat count the slot's DNI or null; outside it an index-out-of-bounds exception |
| ServerTravel.AssignThenWhoIsSited | Server/src/Model/Travel.java:157-163 | success exactly on a free seat, after which the seat is occupied by that DNI; a refusal changes nothing; no other slot changes |
| ServerTravel.DeallocateUndoesAssign | Server/src/Model/Travel.java:157-177 | deallocating right after a successful assignment restores the table |
| ServerTravel.DeallocateFrees | Server/src/Model/Travel.java:171-177 | deallocation always reports success and leaves the seat free |
| ServerTravel.Entries | Server/src/Model/Travel.java:142-146 | at most one element per slot considered; read back by ServerTravel.StatusLineTokens and ServerSalesDesk.LoadEntriesRestores |
| ServerTravel.StatusLineStep | Server/src/Model/Travel.java:142-146 | slot i adds `i-dni,` to the line exactly when it is occupied |
| ServerTravel.StatusLineTokens | Server/src/Model/Travel.java:139-148 | scanning the status line by `,` gives the id and then the elements in seat order |
| ServerTravel.Travel.constructor | Server/src/Model/Travel.java:48 | a fresh table of `seatsNumber + 1` empty slots |
| ServerTravel.Travel.IsSeatFree | Server/src/Model/Travel.java:185-190 | agrees with the slot-table specification |
| ServerTravel.Travel.WhoIsSited | Server/src/Model/Travel.java:199-204 | agrees with the slot-table specification |
| ServerTravel.Travel.AssignSeat | Server/src/Model/Travel.java:157-163 | result and new table are those of the assignment specification |
| ServerTravel.Travel.DeallocateSeat | Server/src/Model/Travel.java:171-177 | result and new table are those of the deallocation specification |
| ServerTravel.Travel.SaveTravelStatus | Server/src/Model/Travel.java:139-148 | the loop builds exactly the status line: the id, then `i-dni,` for each occupied slot from 1 |
| ServerTravel.NewTravel | Server/src/Model/Travel.java:36-48 | a parse failure is the constructor's exception; otherwise the parsed record with an empty table of the allocated size |
| ServerPassenger.ParsePassenger | Server/src/Model/Passenger.java:43-48 | succeeds exactly when the line has three `,` tokens, which become DNI, name and surname; otherwise NoSuchElementException |
| ServerPassenger.ParseToString | Server/src/Model/Passenger.java:43-85 | a comma-free passenger's `toString()` line parses back to it exactly when the DNI and surname are non-empty |
| ServerPassenger.SaveLines | Server/src/Model/Passenger.java:118-120 | one line, which reads back as the passenger |
| ClientTravel.Parse | Client/src/Model/Travel.java:35-63 | succeeds exactly when the record parses and its table size is allocatable; the seat count is the distribution's; errors are NoSuchElement or NegativeArraySize |
| ClientTravel.GettersReadLine | Client/src/Model/Travel.java:35-42 | each getter returns the token of the line the constructor read for it (also Client/src/Model/Travel.java:70-125) |
| ClientTravel.RecordReadsTokens | Client/src/Model/Travel.java:36-42 | the record's fields are the line's first ten `,` tokens |
| ClientTravel.ToStringReadsBack | Client/src/Model/Travel.java:35-47 | a parsed travel with non-empty id and info parses back unchanged from its `toString()` line (also Client/src/Model/Travel.java:161-174) |
| ClientTravel.ParsedWellFormed | Client/src/Model/Travel.java:35-47 | what the scanner reads holds no comma and its date parts are ints |
| ClientTravel.EqualsByFirstToken | Client/src/Model/Travel.java:133-139 | two parsed lines give equal travels exactly when their first tokens agree |
| ServerSeatsReadException.MessageCases | Server/src/Model/SeatsReadException.java:15-29 | empty exactly for codes other than `TRAVEL` and `SEAT`; `TRAVEL` carries the element read, `SEAT` the assignment message |
| ServerSeatsReadException.IsNumberFormatException | Server/src/Model/SeatsReadException.java:3 | every such exception is caught as a NumberFormatException |
| LegacySeatsReadException.MessageCases | src/Model/SeatsReadException.java:13-27 | empty exactly for codes other than 1 and 2; 1 carries the element read, 2 the assignment message |
| TopPanel.DaysInMonth | src/View/TopPanel.java:116-180 | positive exactly for months 1 to 12: 31 for the long months, 30 for the short ones, 29 or 28 in February as the year is leap or not; -1 otherwise |
| TopPanel.YearLength | src/View/TopPanel.java:116-180 | the twelve month lengths add up to 366 in a leap year and 365 otherwise |
| TopPanel.GregorianCycle | src/View/TopPanel.java:172-180 | after the 1582 cutover the leap rule repeats every 400 years |
| TopPanel.CenturyYears | src/View/TopPanel.java:172-180 | 1500 is leap under the Julian rule; 1700 and 1900 are not, 2000 is, under the Gregorian rule |
| TopPanel.DayItems | src/View/TopPanel.java:103-105 | one item per day of the month, none for a negative day count |
| TopPanel.DayItemsReadBack | src/View/TopPanel.java:69-105 | item i reads back as the day i + 1, which lies within the month |
| TopPanel.DayOffered | src/View/TopPanel.java:101-107 | a day is offered exactly when it lies between 1 and the day count |
| TopPanel.TopPanel.constructor | src/View/TopPanel.java:37 | the day box starts empty with nothing selected |
| TopPanel.TopPanel.UpdateDays | src/View/TopPanel.java:101-107 | the box holds the days of the month in order, with "1" selected when there is any |
| TopPanel.TopPanel.ShowTodayAsWritten | src/View/TopPanel.java:39-63 | the day box is filled for the 0-based calendar month |
| TopPanel.TopPanel.ShowToday | src/View/TopPanel.java:39-63 | the day box is filled for the calendar month converted to 1-based |
| TopPanel.JanuaryHasNoDaysAsWritten | src/View/TopPanel.java:41-63 | as written, January (calendar month 0) offers no day |
| TopPanel.MarchThirtiethMissingAsWritten | src/View/TopPanel.java:41-63 | as written, 30 March 2023 is not offered, since February's days are listed |
| TopPanel.TodayOffered | src/View/TopPanel.java:39-42 | with the month converted, today's day is always offered (also src/View/TopPanel.java:63,101-107) |
| TravelOrder.Hour12 | Client/src/View/NorthPanel.java:151-154 | the 12-hour `HOUR` field: the hour of day itself in the morning and twelve less in the afternoon |
| TravelOrder.CompareInt | Client/src/View/NorthPanel.java:157-160 | zero exactly for equal ints, negative exactly when the first is smaller |
| TravelOrder.CompareZero | Client/src/View/NorthPanel.java:147-171 | the comparator answers zero exactly when origin and destiny agree up to case and hour and minute agree (also src/View/NorthPanel.java:122-146) |
| TravelOrder.CompareAntisymmetric | Client/src/View/NorthPanel.java:147-171 | swapping the two travels flips the sign of the comparison (also src/View/NorthPanel.java:122-146) |
| TravelOrder.Insert | Client/src/View/NorthPanel.java:170 | one element longer; contents and order: InsertAdds, InsertSorted |
| TravelOrder.Sort | Client/src/View/NorthPanel.java:170 | the same length (also src/View/NorthPanel.java:145); order and permutation: SortSorted, SortPermutes |
| TravelOrder.InsertSorted | Client/src/View/NorthPanel.java:170 | inserting into an ordered list keeps it ordered |
| TravelOrder.InsertAdds | Client/src/View/NorthPanel.java:170 | inserting adds exactly the one element |
| TravelOrder.SortSorted | Client/src/View/NorthPanel.java:147-171 | the sorted list is ordered by the comparator (also src/View/NorthPanel.java:122-146) |
| TravelOrder.SortPermutes | Client/src/View/NorthPanel.java:147-171 | the sorted list is a permutation of the input (also src/View/NorthPanel.java:122-146) |
| TravelOrder.SortOfSorted | Client/src/View/NorthPanel.java:170 | a list already in order is left unchanged, as a stable sort leaves it (also src/View/NorthPanel.java:145) |
| ClientNorthPanel.WordEnd | Client/src/View/NorthPanel.java:36-38 | the end of the maximal run of `\w` characters from a position |
| ClientNorthPanel.DigitEnd | Client/src/View/NorthPanel.java:36-38 | the end of the maximal run of `\d` characters from a position |
| ClientNorthPanel.MatchAt | Client/src/View/NorthPanel.java:36-38 | a match starting at a position yields hour, minute and id groups made of digits |
| ClientNorthPanel.MatchTail | Client/src/View/NorthPanel.java:36-38 | the part of the pattern after `\w*-\w*` yields digit groups |
| ClientNorthPanel.Find | Client/src/View/NorthPanel.java:183-208 | the first match at or after a position, with digit groups |
| ClientNorthPanel.MatchTimeAndId | Client/src/View/NorthPanel.java:128-134 | the ` HH:MM [ ID: id ]` tail of a label matches with the label's hour, minute and id (also Client/src/View/NorthPanel.java:36-38) |
| ClientNorthPanel.MatchRoute | Client/src/View/NorthPanel.java:128 | the two `\w*` runs of the pattern end at the `-` and at the end of the route (also Client/src/View/NorthPanel.java:36-38) |
| ClientNorthPanel.MatchLabel | Client/src/View/NorthPanel.java:128-134 | from any point of the origin's last word the pattern matches the rest of the label (also Client/src/View/NorthPanel.java:36-38) |
| ClientNorthPanel.NoMatchInOrigin | Client/src/View/NorthPanel.java:36-38 | the pattern cannot start before the origin's last word |
| ClientNorthPanel.FindLabel | Client/src/View/NorthPanel.java:128-134 | `find()` on a label returns the hour, minute and id written into it (also Client/src/View/NorthPanel.java:36-38,183) |
| ClientNorthPanel.SelectedTravel | Client/src/View/NorthPanel.java:178-188 | a null selection is a NullPointerException; a found id is a non-empty string of digits; otherwise null |
| ClientNorthPanel.TravelHourMinute | Client/src/View/NorthPanel.java:195-219 | a null selection is a NullPointerException; a result holds two non-negative ints; only an over-long group fails, with NumberFormatException |
| ClientNorthPanel.LabelIdReadsBack | Client/src/View/NorthPanel.java:128-188 | the id of a travel is read back from its label |
| ClientNorthPanel.LabelTimeReadsBack | Client/src/View/NorthPanel.java:128-134 | the hour and minute written into a label are read back from it (also Client/src/View/NorthPanel.java:195-219) |
| ClientNorthPanel.AfternoonReadsBackAsWritten | Client/src/View/NorthPanel.java:130 | as written, an afternoon departure reads back twelve hours early (also Client/src/View/MainFrame.java:304-312) |
| ClientNorthPanel.DepartureReadsBack | Client/src/View/NorthPanel.java:128-134 | with `HOUR_OF_DAY` the label gives back the departure hour, minute and id (also Client/src/View/NorthPanel.java:178-219; Client/src/View/MainFrame.java:304-312) |
| ClientNorthPanel.ConnectionLabelInjective | Client/src/View/NorthPanel.java:238-241 | a space-free client id and the connection id can both be recovered from the label |
| ClientNorthPanel.Labels | Client/src/View/NorthPanel.java:126-137 | one label per travel, with the 12-hour hour the code writes |
| ClientNorthPanel.NorthPanel.constructor | Client/src/View/NorthPanel.java:56-62 | an empty box and the connection label for the two ids |
| ClientNorthPanel.NorthPanel.UpdateTravels | Client/src/View/NorthPanel.java:116-139 | a null or empty list empties the box and reports it; otherwise the box holds the 12-hour labels of the sorted travels, the first selected (order and permutation: ListedInOrder) |
| ClientNorthPanel.NorthPanel.UpdateConnectionIDLabel | Client/src/View/NorthPanel.java:238-241 | the label becomes `clientID [connectionID]` |
| ClientNorthPanel.ListedInOrder | Client/src/View/NorthPanel.java:116-171 | the box lists every travel as often as it occurs, in the comparator's order |
| LegacyNorthPanel.Label | src/View/NorthPanel.java:99-110 | building a label fails only with an index-out-of-bounds or a number-format exception |
| LegacyNorthPanel.LabelOfListable | src/View/NorthPanel.java:99-110 | a travel whose `toString()` line splits back into its fields is labelled with its origin, destiny, hour of day, minute and id (also src/Model/Travel.java:202-211) |
| LegacyNorthPanel.SelectedTravel | src/View/NorthPanel.java:153-156 | a null selection is a NullPointerException; the only other failure is a missing fifth word |
| LegacyNorthPanel.TravelHour | src/View/NorthPanel.java:163-169 | a null selection is a NullPointerException; the other failures are a missing word or an unparsable half |
| LegacyNorthPanel.LabelWords | src/View/NorthPanel.java:100-110 | the label is six space-separated words |
| LegacyNorthPanel.LabelReadsBack | src/View/NorthPanel.java:100-110 | from a label whose origin, destiny and id hold no space, the id and the time are read back (also src/View/NorthPanel.java:153-169) |
| LegacyNorthPanel.ListedTravelReadsBack | src/View/NorthPanel.java:99-110 | a listed travel without spaces in its text fields is read back as its id and its departure time (also src/View/NorthPanel.java:153-169) |
| LegacyNorthPanel.Labels | src/View/NorthPanel.java:97-111 | one label or failure per travel |
| LegacyNorthPanel.UpToFailure | src/View/NorthPanel.java:97-111 | the box receives at most one item per label |
| LegacyNorthPanel.UpToFailureKeepsPrefix | src/View/NorthPanel.java:97-111 | the labels added are the ones before the first failure, and that failure ends the call |
| LegacyNorthPanel.LabelAll | src/View/NorthPanel.java:97-111 | at most one item per travel |
| LegacyNorthPanel.LabelAllListable | src/View/NorthPanel.java:97-111 | listable travels are all labelled, each with its own fields |
| LegacyNorthPanel.NorthPanel.constructor | src/View/NorthPanel.java:86-89 | an empty box with nothing selected |
| LegacyNorthPanel.NorthPanel.UpdateTravels | src/View/NorthPanel.java:86-114 | null list: NullPointerException and an empty box; empty list: reported; otherwise the sorted travels' labels up to the first failing one, the first selected |
| LegacyNorthPanel.NorthPanel.AddLabels | src/View/NorthPanel.java:96-112 | the loop adds exactly the labels before the first failure and stops with it |
| LegacyNorthPanel.ListedInOrder | src/View/NorthPanel.java:86-146 | listable travels are shown whole, as a permutation in the comparator's order, each under its own label |
| ModelPassenger.ParseLine | src/Model/Passenger.java:39-44 | the only failure is an index-out-of-bounds exception for a line with fewer than three fields |
| ModelPassenger.ParseLineToString | src/Model/Passenger.java:39-63 | a comma-free passenger's `toString()` line parses back to it exactly when the surname is non-empty, since `split` drops trailing empty fields |
| ModelPassenger.ParseLineIgnoresExtraFields | src/Model/Passenger.java:39-44 | fields after the third are ignored |
| ModelPassenger.SaveLines | src/Model/Passenger.java:85-87 | one line, which reads back as the passenger |
| ModelPair.Pair.constructor | src/Model/Pair.java:22-42 | the getters return the seat and passenger given |
| ModelPair.Pair.SetSeat | src/Model/Pair.java:49-51 | the seat is replaced and the passenger kept |
| ModelPair.Pair.SetPassengerID | src/Model/Pair.java:58-60 | the passenger is replaced and the seat kept |
| LegacyPair.Pair.constructor | src/Pair.java:19-38 | the getters return the seat and passenger given |
| LegacyPair.Pair.SetSeat | src/Pair.java:44-46 | the seat is replaced and the passenger kept |
| LegacyPair.Pair.SetPassengerID | src/Pair.java:52-54 | the passenger is replaced and the seat kept |
| ModelTravel.Token | src/Model/Travel.java:56-60 | the token at an index that exists, otherwise an index-out-of-bounds exception |
| ModelTravel.IntToken | src/Model/Travel.java:75-79 | the parsed int of an existing int token; the only failures are a missing token or an unparsable one |
| ModelTravel.ParseRecord | src/Model/Travel.java:54-80 | the line constructor's fields; the only failures are a missing token and an unparsable int (also src/Travel.java:48-74) |
| ModelTravel.SeatsNumber | src/Model/Travel.java:62-63 | the product of the two `x`-separated ints, kept within 32-bit int range; a missing part or an unparsable one fails (also src/Travel.java:56-57) |
| ModelTravel.SizeTable | src/Model/Travel.java:62-64 | the seat count whose table of `seatsNumber + 1` slots can be allocated, or NegativeArraySizeException, or the distribution's own failure (also src/Travel.java:56-58) |
| ModelTravel.SeatsNumberOfDistribution | src/Model/Travel.java:62-63 | `columns x rows` gives `columns * rows` seats when the product is an int |
| ModelTravel.ParseSaveLine | src/Model/Travel.java:54-80 | parsing the line `save` writes gives the record back (also src/Model/Travel.java:219-231; src/Travel.java:48-74,160-172) |
| ModelTravel.ParseToStringLineFails | src/Model/Travel.java:54-65 | the `toString()` line, which has no distribution field, cannot be parsed back (also src/Model/Travel.java:202-211; src/Travel.java:48-59,146-153) |
| ModelTravel.UnassignIn | src/Model/Travel.java:269-271 | succeeds exactly for an index within the table; an index outside it fails and changes nothing (also src/Travel.java:207-209) |
| ModelTravel.UnassignFrees | src/Model/Travel.java:269-301 | a seat within the count is free afterwards and nobody sits on it; no other slot changes |
| ModelTravel.UnassignUndoesAssign | src/Model/Travel.java:256-271 | unassigning right after a successful assignment restores the table |
| ModelTravel.StatusLineByComma | src/Model/Travel.java:238-247 | with `,` as separator the status line is the one the server's travel writes (also Server/src/Model/Travel.java:139-148) |
| ModelTravel.StatusStep | src/Model/Travel.java:241-245 | slot i adds `seat-dni` and the separator exactly when it is occupied (also src/Travel.java:181-185) |
| ModelTravel.Travel.constructor | src/Model/Travel.java:64 | a fresh table of `seatsNumber + 1` empty slots |
| ModelTravel.Travel.IsSeatFree | src/Model/Travel.java:279-284 | agrees with the slot-table specification |
| ModelTravel.Travel.WhoIsSited | src/Model/Travel.java:293-301 | on a consistent table, agrees with the slot-table specification |
| ModelTravel.Travel.AssignSeat | src/Model/Travel.java:256-262 | result and new table are those of the assignment specification, each pair recording its own seat |
| ModelTravel.Travel.UnassignSeat | src/Model/Travel.java:269-271 | the new table is that of the unassignment specification |
| ModelTravel.Travel.SaveLines | src/Model/Travel.java:219-231 | one line, which parses back to the record |
| ModelTravel.Travel.SaveTravelStatus | src/Model/Travel.java:238-247 | the loop builds exactly the status line, reading each pair's seat and DNI |
| ModelTravel.NewTravel | src/Model/Travel.java:54-65 | a parse failure is the constructor's exception; otherwise the parsed record with an empty table of the allocated size |
| LegacyTravel.Travel.constructor | src/Travel.java:58 | a fresh table of `seatsNumber + 1` empty slots |
| LegacyTravel.Travel.IsSeatFree | src/Travel.java:216-221 | agrees with the slot-table specification |
| LegacyTravel.Travel.WhoIsSited | src/Travel.java:229-237 | on a consistent table, agrees with the slot-table specification |
| LegacyTravel.Travel.AssignSeat | src/Travel.java:195-201 | result and new table are those of the assignment specification |
| LegacyTravel.Travel.UnassignSeat | src/Travel.java:207-209 | the new table is that of the unassignment specification |
| LegacyTravel.Travel.SaveLines | src/Travel.java:160-172 | one line, which parses back to the record with `;` as separator |
| LegacyTravel.Travel.SaveTravelStatus | src/Travel.java:178-187 | the loop builds exactly the `;`-separated status line |
| LegacyTravel.NewTravel | src/Travel.java:48-59 | a parse failure is the constructor's exception; otherwise the parsed record with an empty table of the allocated size |
| ModelSalesDesk.PassengerObject.constructor | src/Model/Passenger.java:39-44 | a passenger object holding the given fields |
| ModelSalesDesk.Find | src/Model/SalesDesk.java:116-123 | a stored passenger with the DNI, or null exactly when none has it |
| ModelSalesDesk.Without | src/Model/SalesDesk.java:104 | exactly the stored objects other than the one removed |
| ModelSalesDesk.WithoutDni | src/Model/SalesDesk.java:102-108 | exactly the stored passengers whose DNI differs |
| ModelSalesDesk.AddKeepsUnique | src/Model/SalesDesk.java:88-94 | adding a passenger whose DNI is absent keeps DNIs unique and makes it findable |
| ModelSalesDesk.DeleteCopyAsWritten | src/Model/SalesDesk.java:102-108 | as written, deleting through a different object with the same DNI reports success and leaves the stored passenger findable |
| ModelSalesDesk.DeleteRemovesDni | src/Model/SalesDesk.java:102-108 | after the corrected deletion no passenger with the DNI is left, and every other one still is |
| ModelSalesDesk.Corridor | src/Model/SalesDesk.java:244 | the corridor column is ceil(A / 2) for a non-negative seat count per row |
| ModelSalesDesk.LayoutOf | src/Model/SalesDesk.java:241-244 | reading the distribution fails only with an index-out-of-bounds or a number-format exception |
| ModelSalesDesk.RowTexts | src/Model/SalesDesk.java:264-281 | one line per row drawn |
| ModelSalesDesk.HeaderStops | src/Model/SalesDesk.java:250-260 | once a column letter is out of bounds, the header fails with that exception |
| ModelSalesDesk.HeaderCellsFail | src/Model/SalesDesk.java:250-260 | the header fails exactly when some column before the end does |
| ModelSalesDesk.HeaderInBounds | src/Model/SalesDesk.java:241-260 | the header is drawn exactly when there are at most six seats per row, or when the column count wraps negative (also src/Model/SalesDesk.java:33) |
| ModelSalesDesk.RowCellsPlain | src/Model/SalesDesk.java:266-279 | the cells of a row hold no line break |
| ModelSalesDesk.PlanLines | src/Model/SalesDesk.java:240-283 | a drawn plan is the header line followed by exactly one line per row |
| ModelSalesDesk.RowCellsNumbering | src/Model/SalesDesk.java:266-279 | each seat cell of a row takes the next seat number |
| ModelSalesDesk.SeatColumnsCount | src/Model/SalesDesk.java:266-279 | the last row has no corridor; the back-door row keeps only the seats left of the corridor; other rows lose the corridor column |
| ModelSalesDesk.RowSeats | src/Model/SalesDesk.java:264-281 | a row advances the seat counter by its seat count |
| ModelSalesDesk.RowTextsNumbering | src/Model/SalesDesk.java:243-281 | after n rows the counter stands at the closed-form next seat |
| ModelSalesDesk.SeatsDrawn | src/Model/SalesDesk.java:240-283 | with A seats per row and B rows the plan numbers seats from 1 to A * B + 1, less floor(A / 2) for the back door from eight rows on |
| ModelSalesDesk.LoadMatching | src/Model/SalesDesk.java:381-385 | only the travels with the line's id change; on success each of them has loaded the line |
| ModelSalesDesk.LoadMatchingStops | src/Model/SalesDesk.java:381-419 | once a travel's load throws, no later travel is offered the line |
| ModelSalesDesk.ReadStatusStep | src/Model/SalesDesk.java:381-385 | a travel with another id is skipped; one with the id loads the line |
| ModelSalesDesk.ApplyLine | src/Model/SalesDesk.java:380-385 | one table per travel; which tables change: ApplyLinesDistinct, RepeatedSeatReportedAsSeat |
| ModelSalesDesk.ApplyLines | src/Model/SalesDesk.java:375-393 | one table per travel; the saved status file loads back: StatusFileLoadsBack |
| ModelSalesDesk.ApplyLinesStep | src/Model/SalesDesk.java:379-387 | each line is applied in turn until one throws |
| ModelSalesDesk.LoadMatchingDistinct | src/Model/SalesDesk.java:381-385 | with distinct ids only the travel with the line's id is offered the line |
| ModelSalesDesk.ApplyLinesDistinct | src/Model/SalesDesk.java:375-393 | with distinct ids, reading the status file gives what the server's store gives (also Server/src/Model/SalesDesk.java:261-306) |
| ModelSalesDesk.StatusFileLoadsBack | src/Model/SalesDesk.java:375-421 | the status file the travels write reads back into the travels freshly read (also src/Model/SalesDesk.java:306-313) |
| ModelSalesDesk.EveryMatchLoads | src/Model/SalesDesk.java:381-385 | two travels with the same id both load the line, since the loop has no early exit |
| ModelSalesDesk.SalesDesk.SeatTables | src/Model/SalesDesk.java:24 | the seat table of each travel, in iteration order |
| ModelSalesDesk.SalesDesk.constructor | src/Model/SalesDesk.java:42-50 | given travels that each have their own well-sized table, the store holds the given passengers and travels and is valid |
| ModelSalesDesk.SalesDesk.SearchPassenger | src/Model/SalesDesk.java:116-123 | a stored passenger with the DNI, or null exactly when none has it |
| ModelSalesDesk.SalesDesk.SearchTravel | src/Model/SalesDesk.java:131-138 | a stored travel with the id, or null exactly when none has it |
| ModelSalesDesk.SalesDesk.AddPassenger | src/Model/SalesDesk.java:88-94 | true exactly when no passenger has the DNI, in which case it is appended; otherwise nothing changes |
| ModelSalesDesk.SalesDesk.DeletePassengerAsWritten | src/Model/SalesDesk.java:102-108 | true exactly when a passenger has the DNI, but only the object passed is removed |
| ModelSalesDesk.SalesDesk.DeletePassenger | src/Model/SalesDesk.java:102-108 | true exactly when a passenger has the DNI; afterwards none has it and the others remain |
| ModelSalesDesk.SalesDesk.AssignSeat | src/Model/SalesDesk.java:148-153 | result and new table are those of the guarded assignment: only a free seat is assigned |
| ModelSalesDesk.SalesDesk.DeallocateSeat | src/Model/SalesDesk.java:162-167 | result and new table are those of the guarded deallocation: only an occupied seat is emptied |
| ModelSalesDesk.SalesDesk.WhoIsSited | src/Model/SalesDesk.java:176-180 | null for a free seat, otherwise the stored passenger with the seated DNI, and the travel's exception for a seat off the table |
| ModelSalesDesk.SalesDesk.SearchTravelsPerDate | src/Model/SalesDesk.java:429-443 | exactly the stored travels on that day, month and year |
| ModelSalesDesk.SalesDesk.SeatsStatus | src/Model/SalesDesk.java:240-283 | the loops build exactly the plan of the seat-map specification |
| ModelSalesDesk.SalesDesk.HeaderLoop | src/Model/SalesDesk.java:249-261 | the column loop builds exactly the header, or its exception |
| ModelSalesDesk.SalesDesk.SeatRows | src/Model/SalesDesk.java:264-281 | the row loop builds exactly the rows, each followed by a line break |
| ModelSalesDesk.SalesDesk.SeatRow | src/Model/SalesDesk.java:265-280 | the column loop builds exactly one row and the next seat number |
| ModelSalesDesk.SalesDesk.ReadTravelsStatus | src/Model/SalesDesk.java:375-393 | the tables afterwards, and the exception, are those of applying the lines in order |
| ModelSalesDesk.SalesDesk.ReadStatusLine | src/Model/SalesDesk.java:380-385 | the tables afterwards are those of offering the line to every travel with its id |
| ModelSalesDesk.SalesDesk.LoadAt | src/Model/SalesDesk.java:401-421 | the travel's table is the one the line loads into it; every other table stays |
| ModelSalesDesk.SeatOneLineTokens | src/Model/SalesDesk.java:404-408 | the status line of a travel seating one DNI in seat 1 scans into its id and the element `1-dni` |
| ModelSalesDesk.RepeatedSeatAsWritten | src/Model/SalesDesk.java:413-419 | as written, the element of such a line read into a table whose seat 1 is taken fails with code `TRAVEL` and the element, and the table is unchanged |
| ModelSalesDesk.RepeatedSeatReportedAsSeat | src/Model/SalesDesk.java:413-416 | with the clash kept as `SEAT`, the desk's reading of such a line fails with code `SEAT` and every table stays as it was |
| ModelSalesDesk.SeatRowsStep | src/Model/SalesDesk.java:264-281 | drawing one more row extends the listing by that row's line |
| LegacyOffice.SwapRemove | src/Office.java:86-105 | one element fewer; the same elements less the removed one: SwapRemoveMultiset |
| LegacyOffice.SwapRemoveMultiset | src/Office.java:83-110 | deleting by swapping takes out exactly one copy of the deleted element and nothing else |
| LegacyOffice.TravelIndex | src/Office.java:163-170 | the first slot holding a travel with the id, or -1 exactly when none has it |
| LegacyOffice.TravelLines | src/Office.java:190-192 | one `toString()` line per stored travel, in slot order |
| LegacyOffice.Office.constructor | src/Office.java:23-28 | both arrays fresh and empty, at the fixed capacity |
| LegacyOffice.Office.SearchPassenger | src/Office.java:149-156 | the first stored passenger with the DNI, or null |
| LegacyOffice.Office.TravelSlot | src/Office.java:101-102 | the loop finds the slot of the first travel with the id, or stops past the last one (also src/Office.java:135-136,164-165) |
| LegacyOffice.Office.PassengerSlot | src/Office.java:84-120 | the loop finds the slot of the first passenger with the DNI, or stops past the last one |
| LegacyOffice.Office.SearchTravel | src/Office.java:163-170 | the first stored travel with the id, or null |
| LegacyOffice.Office.AddPassengerAsWritten | src/Office.java:51-60 | as written: a known DNI is refused; a new one is stored, or writes past the end of a full array |
| LegacyOffice.Office.AddPassenger | src/Office.java:51-60 | stored exactly when the DNI is new and a slot is left, then appended; otherwise nothing changes |
| LegacyOffice.Office.AddTravelAsWritten | src/Office.java:67-76 | as written: a known id is refused; a new one is stored, or writes past the end of a full array |
| LegacyOffice.Office.AddTravel | src/Office.java:67-76 | stored exactly when the id is new and a slot is left, then appended; otherwise nothing changes |
| LegacyOffice.Office.PutPassenger | src/Office.java:54-55 | the passenger is appended after the last stored one |
| LegacyOffice.Office.PutTravel | src/Office.java:70-71 | the travel is appended after the last stored one |
| LegacyOffice.Office.DeletePassenger | src/Office.java:83-93 | true exactly when a passenger has the DNI; the first such one is replaced by the last |
| LegacyOffice.Office.RemovePassengerAt | src/Office.java:86-88 | the last passenger moves into the slot and the store shrinks by one |
| LegacyOffice.Office.DeleteTravel | src/Office.java:100-110 | true exactly when a travel has the id; the first such one is replaced by the last |
| LegacyOffice.Office.RemoveTravelAt | src/Office.java:103-105 | the last travel moves into the slot and the store shrinks by one |
| LegacyOffice.Office.ModifyPassenger | src/Office.java:118-126 | true exactly when a passenger has the DNI; the first such one is replaced in its slot |
| LegacyOffice.Office.ModifyTravel | src/Office.java:134-142 | true exactly when a travel has the id; the first such one is replaced in its slot |
| LegacyOffice.Office.ListPassengers | src/Office.java:176-182 | one `toString()` line and a line break per stored passenger, in slot order |
| LegacyOffice.Office.ListTravels | src/Office.java:188-194 | one `toString()` line and a line break per stored travel, in slot order |
| LegacyOffice.Office.AssignSeat | src/Office.java:203-208 | result and new table are those of the guarded assignment: only a free seat is assigned |
| LegacyOffice.Office.UnassignSeat | src/Office.java:215-217 | the seat is emptied, whatever it held |
| LegacyOffice.Office.WhoIsSited | src/Office.java:225-229 | null for a free seat, otherwise the stored passenger with the seated DNI, or null |
| LegacyOffice.Office.SeatsStatus | src/Office.java:261-283 | the loops build exactly the plan of the four-column seat-map specification |
| LegacyOffice.Office.ReadTravelAt | src/Office.java:378-383 | only the table of the travel in that slot changes, as the line's elements dictate |
| LegacyOffice.Office.ReadStatusTokens | src/Office.java:377-384 | the line is offered to the travels in slots before the bound, in order |
| LegacyOffice.Office.ReadStatusLines | src/Office.java:375-387 | the lines are read in order; the first exception stops the reading |
| LegacyOffice.Office.ReadStatusLine | src/Office.java:376-386 | one more line read, or the exception the whole reading ends with |
| LegacyOffice.Office.ReadTravelsStatusAsWritten | src/Office.java:371-391 | as written, each line is offered to every stored travel except the last |
| LegacyOffice.Office.ReadTravelsStatus | src/Office.java:371-391 | each line is offered to every stored travel |
| LegacyOffice.ReadTravelTokens | src/Office.java:378-383 | a travel loads the line's elements exactly when the line's first token is its id |
| LegacyOffice.ReadElement | src/Office.java:380-381 | one `seat-dni` element is parsed and assigned, or its exception |
| LegacyOffice.DrawPlan | src/Office.java:269-281 | the row loop builds exactly the plan rows |
| LegacyOffice.DrawRow | src/Office.java:270-280 | one row: its number, a bar and one cell per seat; the seat counter advances by the seats per row |
| LegacyOffice.ApplyToTravelsBeyond | src/Office.java:377 | travels at or above the loop bound are never read into |
| LegacyOffice.ApplyLinesBeyond | src/Office.java:375-387 | with the bound one short of the store, the last stored travel is never read into |
| LegacyOffice.OnlyTravelLostAsWritten | src/Office.java:371-391 | as written, an office holding one travel loses its occupied seats on reload; the corrected reader restores them (also src/Office.java:322-327) |
| ModelOffice.FindTravel | src/Model/Office.java:145-154 | a travel found is in the list and has the id; none is found exactly when no travel has it |
| ModelOffice.PassengerIndex | src/Model/Office.java:128-137 | the first position holding the DNI, or -1 exactly when no passenger has it |
| ModelOffice.TravelIndex | src/Model/Office.java:145-154 | the first position holding the id, or -1 exactly when no travel has it |
| ModelOffice.RemovePassengerCases | src/Model/Office.java:76-78 | `ArrayList.remove` by DNI takes out exactly the first passenger with it and keeps the rest in order; without one the list is unchanged |
| ModelOffice.RemoveTravelCases | src/Model/Office.java:86-88 | removing by id takes out exactly the first travel with it and keeps the rest in order; without one the list is unchanged |
| ModelOffice.FindPassengerAtIndex | src/Model/Office.java:128-137 | the passenger search answers the passenger at the first position with the DNI |
| ModelOffice.FindTravelAtIndex | src/Model/Office.java:145-154 | the travel search answers the travel at the first position with the id |
| ModelOffice.ListingLines | src/Model/Office.java:161-187 | a listing of newline-free lines splits back into exactly those lines and a final empty field |
| ModelOffice.PassengerLines | src/Model/Office.java:161-171 | one `toString()` line per passenger, in list order |
| ModelOffice.TravelLines | src/Model/Office.java:178-187 | one `toString()` line per travel, in list order |
| ModelOffice.RowTexts | src/Model/Office.java:267-279 | one line per row, row `i` drawn from seat `1 + i * perRow` |
| ModelOffice.PlanLines | src/Model/Office.java:259-281 | the plan is the header line, then exactly one line per row, then nothing |
| ModelOffice.IsSeatFreeOnPlan | src/Model/Office.java:270-274 | for a drawn seat, `isSeatFree` answers true exactly when the plan shows the seat free |
| ModelOffice.SeatsStatus | src/Model/Office.java:259-281 | a missing or non-numeric part of the distribution raises; otherwise the plan of the travel's current table |
| ModelOffice.DrawPlan | src/Model/Office.java:266-279 | the outer loop draws the header and one line per row, no line for a negative count |
| ModelOffice.DrawRow | src/Model/Office.java:268-278 | the inner loop draws the row's number and its seats, a number for a free seat and a dot for a taken one, the aisle after the second |
| ModelOffice.ApplyToTravels | src/Model/Office.java:387-396 | one line offered to the travels leaves as many tables as there were; what each travel gets: ApplyToTravelEntries, ApplyToTravelsStops |
| ModelOffice.ApplyLines | src/Model/Office.java:381-403 | reading lines leaves as many tables as there were; where it stops: ApplyLinesStops |
| ModelOffice.ApplyEntryOfEntry | src/Model/Office.java:392-393 | the `seat-dni` element written for an occupied seat is read back into its empty slot (also src/Model/Travel.java:238-247) |
| ModelOffice.ApplyEntriesRestore | src/Model/Office.java:392-394 | the elements written for a table restore that table, slot by slot, into an empty one (also src/Model/Travel.java:238-247) |
| ModelOffice.StatusLineFields | src/Model/Travel.java:238-247 | split on the separator it was written with, a status line is the id and then one element per occupied seat |
| ModelOffice.StatusLineRestores | src/Model/Office.java:381-403 | read with the separator it was written with, a travel's status line restores its table (also src/Model/Travel.java:238-247) |
| ModelOffice.StatusLineLostAsWritten | src/Model/Office.java:386 | as written, a line written with commas and split on semicolons is one field, so no table is restored (also src/Model/Travel.java:238-247) |
| ModelOffice.OccupiedSeatLostAsWritten | src/Model/Office.java:386 | as written, a travel with an occupied seat loses it on reading back (also src/Model/Travel.java:238-247) |
| ModelOffice.RemoveKeepsTables | src/Model/Office.java:86-88 | deleting a travel keeps every remaining table distinct and valid |
| ModelOffice.ReplaceKeepsTables | src/Model/Office.java:113-120 | replacing a travel by one with a table of its own keeps every table distinct and valid |
| ModelOffice.PassengersOf | src/Model/Office.java:344-356 | never more passengers than lines, and exactly one per line when none fails |
| ModelOffice.TravelsOf | src/Model/Office.java:363-374 | never more travels than lines, and exactly one per line when none fails |
| ModelOffice.PassengersFileReadsBack | src/Model/Office.java:344-356 | the file `savePassengers` writes reads back as the same passengers in the same order, for comma-free fields and a non-empty surname (also src/Model/Office.java:289-291; src/Model/Passenger.java:39-44,85-87) |
| ModelOffice.ReadingStops | src/Model/Office.java:349-352 | the first passenger line that does not parse raises, and the passengers before it stay |
| ModelOffice.TravelReadingStops | src/Model/Office.java:367-370 | the first travel line that does not parse raises, and the travels before it stay |
| ModelOffice.TablesEmpty | src/Model/Office.java:363-374 | travels just read have tables that are empty and of their declared size |
| ModelOffice.NewTravels | src/Model/Office.java:363-374 | the travels made from the lines, in order, each with its own fresh, empty table; the first failure ends the reading |
| ModelOffice.ReadTravelLine | src/Model/Office.java:368 | one more line either adds its travel with a fresh, empty table or ends the reading with its exception |
| ModelOffice.Open | src/Model/Office.java:35-41 | the loading constructor: travels, then passengers, then seat statuses, each reading ending the construction on an exception, with the tables read from empty |
| ModelOffice.ReadTravelTokens | src/Model/Office.java:390-395 | a line without element 0 raises; a line for another travel changes nothing; otherwise each element is read into the table |
| ModelOffice.ReadElement | src/Model/Office.java:392-393 | one element: seat parsed, DNI taken, then `assignSeat`; each failure raises and leaves the table as it was |
| ModelOffice.AssignSeat | src/Model/Office.java:197-202 | only a seat `isSeatFree` reports free is assigned, with the passenger's DNI |
| ModelOffice.UnassignSeat | src/Model/Office.java:210-212 | the seat is emptied, whatever it held |
| ModelOffice.WhoIsSited | src/Model/Office.java:221-225 | null for a free seat, otherwise the stored passenger with the seated DNI, or null when none has it |
| ModelOffice.Office.constructor | src/Model/Office.java:24-27 | both lists empty |
| ModelOffice.Office.SearchPassenger | src/Model/Office.java:128-137 | the loop answers the first passenger with the DNI, or null |
| ModelOffice.Office.SearchTravel | src/Model/Office.java:145-154 | the loop answers the first travel with the id, or null |
| ModelOffice.Office.AddPassenger | src/Model/Office.java:48-54 | appends the passenger and answers true exactly when no passenger had the DNI; otherwise nothing changes |
| ModelOffice.Office.AddTravel | src/Model/Office.java:62-68 | appends the travel and answers true exactly when no travel had the id; otherwise nothing changes |
| ModelOffice.Office.DeletePassenger | src/Model/Office.java:76-78 | removes the first passenger with the DNI, if any; the travels are unchanged |
| ModelOffice.Office.DeleteTravel | src/Model/Office.java:86-88 | removes the first travel with the id, if any, keeping every remaining table valid |
| ModelOffice.Office.ModifyPassenger | src/Model/Office.java:97-104 | when the DNI is found, its first passenger is removed and the update appended, answering true; otherwise false and nothing changes |
| ModelOffice.Office.ModifyTravel | src/Model/Office.java:113-120 | when the id is found, its first travel is removed and the update appended, answering true; otherwise false and nothing changes |
| ModelOffice.Office.ListPassengers | src/Model/Office.java:161-171 | each passenger's `toString()` and a newline, in list order |
| ModelOffice.Office.ListTravels | src/Model/Office.java:178-187 | each travel's `toString()` and a newline, in list order |
| ModelOffice.Office.SavePassengers | src/Model/Office.java:289-319 | the file holds each passenger's `toString()` line, in list order |
| ModelOffice.Office.SaveTravels | src/Model/Office.java:299-319 | the file holds each travel's `save` line, in list order |
| ModelOffice.Office.SaveTravelsStatus | src/Model/Office.java:327-337 | the file holds each travel's comma-separated status line, in list order |
| ModelOffice.Office.ReadPassengers | src/Model/Office.java:344-356 | the passengers parsed from the lines are appended in order; the first failure raises and keeps those before it |
| ModelOffice.Office.ReadTravels | src/Model/Office.java:363-374 | the travels parsed from the lines are appended in order with fresh, empty tables; the list before them is kept |
| ModelOffice.Office.ReadLists | src/Model/Office.java:38-39 | on empty lists, the travels are read, then the passengers unless the travels raised |
| ModelOffice.Office.ReadTravelAt | src/Model/Office.java:389-395 | one travel offered a line: only its table changes |
| ModelOffice.Office.ReadStatusTokens | src/Model/Office.java:386-396 | one split line offered to every travel in list order; the first exception ends the reading |
| ModelOffice.Office.ReadTravelsStatus | src/Model/Office.java:381-403 | every line split on `;` and offered to every travel, stopping at the first exception |

## Left out

- Sockets, readers and writers are modelled as line queues. Read timeouts and peer failures are explicit outcomes of the queue, not timing.
- Threads are left out: the accept loop and thread pool, the `Timer` schedules, `synchronized` and the concurrent collections. Every operation runs sequentially, and a send followed by its receive on one channel is atomic.
- The latch await of `Server/src/Control/OfficeServer.java` is left out. The latch is a counter, and the model states its count-down.
- The configuration loading, the run loop and `main` of `Server/src/Control/OfficesServer.java` are left out. The six random alphabet indices of `createConnectionID` are a parameter.
- The client's endless long-polling loop is modelled over a finite input: it ends with the exception that the exhausted or failing socket raises (`Client.LongPollSpec`).
- File I/O is modelled as sequences of lines. Opening a file and a failed save are outside the model.
- `readPassengers`, `readTravels`, the loading constructor, `savePassengers`, `saveTravels`, `saveTravelsStatus` and `viewTravelSheet` of `src/Office.java` are not modelled. Their `src/Model/Office.java` counterparts are modelled, except for `viewTravelSheet`.
- `viewTravelSheet` of `src/Model/Office.java` and `generateTravelSheet` of `src/Model/SalesDesk.java` are left out. They are display and file reports over `GregorianCalendar` formatting.
- `readPassengers`, `readTravels`, `savePassengers`, `saveTravelsStatus` and `setTravelsObserver` of `src/Model/SalesDesk.java` are left out. They are file I/O and an observer registration; the status-line reading and `loadPassengersIntoTravel` are modelled.
- `src/Model/SalesDesk.java` calls seat operations (`deallocateSeat`) that its sibling `src/Model/Travel.java` lacks. That desk is modelled over the server travel class, which has all of them.
- `getSingletonInstance` and `clone` of `src/Model/SalesDesk.java` are left out. They manage a process-wide instance and do not change the store's behaviour.
- The static lists of `src/Model/Office.java` are modelled as the fields of one office object.
- ModelOffice.Office.ReadTravels: builds the new travels in a local sequence and appends them at the end, rather than adding each as its line is read. Nothing else runs in between, so the outcome is the same.
- ModelOffice.Office.AddTravel: requires that the new travel's seat table is not already held by another stored travel. Java would let two stored records share one array; the model keeps the tables distinct so that a seat change touches one travel.
- ModelOffice.Office.ModifyTravel: requires that the replacement's seat table is not already stored, for the same reason.
- LegacyOffice.Office.AddTravel: requires that the new travel's seat table is not already stored, for the same reason.
- LegacyOffice.Office.ModifyTravel: requires that the replacement's seat table is not already stored, for the same reason.
- `src/Passenger.java` is not part of this model. `src/Office.java` is modelled over the passenger record of `src/Model/Passenger.java`.
- Hashing is modelled by the fields it uses. The server's passenger and travel sets keep an element once per equal key within its hash bucket: DNI and name for passengers (`ServerSalesDesk.AddToPassengers`, `ServerSalesDesk.RemoveFromPassengers`), the id and the hashed fields for travels (`ServerSalesDesk.SameTravel`). The desktop passenger set hashes by object identity, because `Passenger` there does not override `hashCode` (`ModelSalesDesk.Without`, `ModelSalesDesk.SalesDesk.DeletePassengerAsWritten`). Only collisions between different `String` hash codes are left out: two elements are taken to share a bucket exactly when their hashed fields are equal.
- The seat plan counts seats in an unbounded integer. The 32-bit wrap of its `seatsIndex` counter needs more than two thousand million seats and is not modelled.
- The older `SeatsReadException` is chosen by an int code, and its callers pass it the codes that the server version takes as strings. The model keeps each class's own table and does not reconcile the two.
- Dates are integer tuples. `GregorianCalendar` normalisation, time zones and daylight-saving gaps are left out, and so are `isOutOfDate` and `getDateToPrint`.
- The client `Travel`'s unused seat array and its `hashCode` are left out.
- Swing is left out: frames, panels, combo boxes, dialogs, listeners, look-and-feel, and the `Location` label lookup. Only the panels' label, parsing, sorting and day-list helpers are modelled.
- `TravelOrder` sorts a sequence with a stable insertion sort that serves as the reference for `Collections.sort`. The in-place sort of the shared list, and its aliasing, are not modelled. The comparator is shown total and reflexive; its transitivity is not proved.
- The hour and minute regular expressions of `Client/src/View/NorthPanel.java` are modelled as one recogniser for the fixed label shape, not as a general regex engine.
- `src/View/NorthPanel.java` fills the combo box with labels as it builds them. The model builds the list of labels first and then fills the box with it.
- The `PropertyChangeSupport` observers and the `ServerListener`/`ViewListener` interfaces are left out. A listener is a parameter returning a boolean.
- The GUI event controllers, `System.exit`, the test drivers and the notes are left out.
- OfficeServer.OfficeServer.Run: for `assign`, `deallocate`, `connect_push` and `disconnect_push` its own contract states only the validity of the registry and that no IOException escapes; their reply and registry change are stated by `OfficeServer.OfficeServer.Handle`, which `Run` calls on the socket just after the request line.
- The hash sets of both stores are sequences in insertion order: every add appends. Java iterates a `HashSet` in hash-bucket order, so the line order of replies and saved files, and which element a search meets first, are one admissible order rather than Java's. The members that depend on it follow.
- ServerSalesDesk.AddToPassengers: appends, where Java's set places the passenger by the hash of its name and DNI.
- ServerSalesDesk.FindPassenger: answers the first in insertion order when two stored passengers share a DNI but not a name.
- ServerSalesDesk.FindTravel: answers the first travel with the id in insertion order.
- ServerSalesDesk.IndexOfId: the first travel with the id in insertion order receives the status line.
- ServerSalesDesk.OnDate: lists the day's travels in insertion order, and so does the `search_travels_per_date` reply (`OfficeServer.OfficeServer.PerDate`).
- ServerSalesDesk.PassengerLines: the passengers file lists the passengers in insertion order.
- ServerSalesDesk.StatusLines: the status file lists the travels in insertion order.
- ModelSalesDesk.SalesDesk.AddPassenger: appends, where Java's set places the passenger by its identity hash.
- ModelSalesDesk.SalesDesk.SearchTravelsPerDate: lists the day's travels in insertion order.
- OfficesServer.OfficesServer.NewPushConnection: requires a connection that carries a company. Java would create and file a desk under a null company key. Its only caller files a connection after an `ok` reply, and `OfficeServer.OfficeServer.Connection` proves that a desk which closed before sending its company never gives one.
- SalesDesks.SalesDesks.NewDesk: keeps one store per company, the corrected design of the Findings row for `Server/src/Model/SalesDesk.java:20-21`. As written, the static sets make a new desk reload the store every company shares; that behaviour is stated only by `SalesDesks.SharedNewDesk`, `SalesDesks.SharedNewDeskResets` and `SalesDesks.SharedStoreLeaks`, for passengers.
- SalesDesks.SalesDesks.Assign: "no other company's desk changes" holds of the per-company store only; with the static sets as written, a passenger added for one company is seen by all (`SalesDesks.SharedStoreLeaks`).
- SalesDesks.SalesDesks.Deallocate: "no other company's desk changes" holds of the per-company store only, for the same reason.
- ServerSalesDesk.SalesDesk.LoadPassengersIntoTravel: reports a taken seat with code `SEAT`, the corrected behaviour of the Findings row for `Server/src/Model/SalesDesk.java:298-304`; as written the code rethrows it with code `TRAVEL` (`ServerSalesDesk.LoadEntryAsWritten`).
- ServerSalesDesk.SalesDesk.ReadTravelsStatus: reads with the corrected clash code `SEAT`, as above.
- ServerSalesDesk.SalesDesk.ReadStatusLine: reads with the corrected clash code `SEAT`, as above.
- ServerSalesDesk.NewSalesDesk: reads the status file with the corrected clash code `SEAT`, as above; so do `ServerSalesDesk.LoadOutcome` and the desk-creating members `SalesDesks.SalesDesks.NewDesk`, `OfficesServer.OfficesServer.EnsureDesk`, `OfficesServer.OfficesServer.NewPushConnection` and `OfficeServer.OfficeServer.Connection`.
- OfficeServer.OfficeServer.Connection: a desk it creates reads the status file with the corrected clash code `SEAT`, as `ServerSalesDesk.NewSalesDesk` does.
- OfficesServer.OfficesServer.EnsureDesk: its loading outcome uses the corrected clash code `SEAT`, as `ServerSalesDesk.NewSalesDesk` does.
- ModelSalesDesk.SalesDesk.ReadTravelsStatus: reads with the corrected clash code `SEAT`, the corrected behaviour of the Findings row for `src/Model/SalesDesk.java:413-419`; as written the code rethrows it with code `TRAVEL` (`ModelSalesDesk.RepeatedSeatAsWritten`).
- ModelSalesDesk.SalesDesk.ReadStatusLine: reads with the corrected clash code `SEAT`, as above.
- ModelSalesDesk.SalesDesk.LoadAt: loads with the corrected clash code `SEAT`, as above.
- ModelSalesDesk.SalesDesk.constructor: takes travels already read, each with a table of its own, and requires that; reading the files is left out as stated above.
- Text.IsWhitespace: covers the ASCII whitespace of `Character.isWhitespace` only; the Unicode space separators it also accepts are not modelled, so neither are the `Scanner` tokens they would split.
- Text.LowerChar: folds `A`-`Z` only; Java's Unicode case folding is not modelled.
- Text.CompareIgnoreCase: compares ASCII-folded characters only, for the same reason.
- TravelOrder.Compare: orders origins and destinies with the ASCII-only `Text.CompareIgnoreCase`; so do `TravelOrder.CompareZero`, `TravelOrder.CompareAntisymmetric` and the sort built on it.
- TravelOrder.CompareZero: holds of the ASCII-only case folding of `Text.CompareIgnoreCase`, not of Java's full Unicode `compareToIgnoreCase`.
- TravelOrder.CompareAntisymmetric: holds of the ASCII-only case folding of `Text.CompareIgnoreCase`, not of Java's full Unicode `compareToIgnoreCase`.

## Findings

| source | as written | input that shows it | evidently intended | confidence | as-written member | corrected member |
|---|---|---|---|---|---|---|
| src/Model/Office.java:386; src/Model/Travel.java:238-247 | `readTravelsStatus` splits each status line on `;`, but `saveTravelStatus` writes it with `,` | a travel `T1` whose seat 3 is held by `123A`; its status line `T1,3-123A,` is one field that never equals `T1` | the reader splits on the separator the writer uses, and the saved seats come back | not executed | ModelOffice.StatusLineLostAsWritten; ModelOffice.OccupiedSeatLostAsWritten | ModelOffice.StatusLineRestores |
| src/Office.java:377 | the loop over the stored travels stops at `j < indexTravels`, one short of the last one | an office holding one travel (`indexTravels == 0`) reads its own status line and restores none of its seats | every stored travel, `0 <= j <= indexTravels`, is offered each line | not executed | LegacyOffice.Office.ReadTravelsStatusAsWritten; LegacyOffice.OnlyTravelLostAsWritten | LegacyOffice.Office.ReadTravelsStatus |
| src/Office.java:52,68 | the capacity guard `index < MAX` lets the store write at `index + 1 == MAX` | adding a passenger when `MAX_PASSENGERS` are already stored (`indexPassengers == MAX_PASSENGERS - 1`) writes at index `MAX_PASSENGERS`, past the end of the array (ArrayIndexOutOfBoundsException) | the guard is `index + 1 < MAX`, so a full store answers `false` | not executed | LegacyOffice.Office.AddPassengerAsWritten; LegacyOffice.Office.AddTravelAsWritten | LegacyOffice.Office.AddPassenger; LegacyOffice.Office.AddTravel |
| Server/src/Model/SalesDesk.java:298-304 | the `SEAT` exception for a taken seat is thrown inside the `try` whose `NumberFormatException` handler rethrows with code `TRAVEL` | a status line listing seat 3 twice | a clash is reported with code `SEAT` | not executed | ServerSalesDesk.ClashReportedAsTravelAsWritten | ServerSalesDesk.ClashReportedAsSeat |
| src/Model/SalesDesk.java:413-419 | the same `SEAT` exception inside the `try` of the desktop desk's `loadPassengersIntoTravel` is rethrown with code `TRAVEL` | a status line `T1,1-123A,` read for travel `T1` whose seat 1 is already taken | a clash is reported with code `SEAT` and the tables stay as they were | not executed | ModelSalesDesk.RepeatedSeatAsWritten | ModelSalesDesk.RepeatedSeatReportedAsSeat |
| Server/src/Model/SalesDesk.java:20-21,36-37 | the passenger and travel sets are static, so every company's desk shares one store and each new desk resets it | company `a` adds passenger `123A`; company `b`'s desk then finds `123A` | one store per company | not executed | SalesDesks.SharedStoreLeaks | SalesDesks.DesksIsolated |
| src/Model/SalesDesk.java:102-108 | `deletePassenger` searches by DNI, but `HashSet.remove` first looks the object up by `hashCode`, which `Passenger` does not override, so the identity hash decides even though `equals` compares DNIs | deleting a second object with a stored DNI reports `true` and leaves the stored passenger | the passenger with that DNI is removed | not executed | ModelSalesDesk.SalesDesk.DeletePassengerAsWritten; ModelSalesDesk.DeleteCopyAsWritten | ModelSalesDesk.SalesDesk.DeletePassenger; ModelSalesDesk.DeleteRemovesDni |
| Client/src/View/NorthPanel.java:130; Client/src/View/MainFrame.java:304-312 | the label writes the 12-hour `HOUR`, while the frame reads it back as an hour of the day | a travel leaving at 14:30 is read back as 02:30 | the label writes `HOUR_OF_DAY` | not executed | ClientNorthPanel.AfternoonReadsBackAsWritten | ClientNorthPanel.DepartureReadsBack |
| src/View/TopPanel.java:41,63 | the 0-based `GregorianCalendar.MONTH` is passed to `updateDays`, which takes 1-based months | opened in January the day box is empty; opened on 30 March 2023 it lists February's 28 days | the month is converted to 1-based first | not executed | TopPanel.TopPanel.ShowTodayAsWritten; TopPanel.JanuaryHasNoDaysAsWritten; TopPanel.MarchThirtiethMissingAsWritten | TopPanel.TopPanel.ShowToday; TopPanel.TodayOffered |
