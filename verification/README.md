# Alkasir in Dafny

Alkasir is a client and a central server for getting around censorship. This project models the parts
of it whose behaviour depends on every input or on every interleaving, and proves what they keep.

- **Link headers** (`LinkHeader`, `LinkForms`, `LinkRoundTrip`, `LinkExact`, `LinkLists`): the printer and
  parser of section 5 of RFC 5988, written as the loops of the program and proved equal to recursive
  specifications. Headers written with any mixture of tokens, quoted values and spaces are read as what they
  mean, and a list of links comes back if and only if every link in it is well formed.
- **Export pages** (`ExportQuery`, `ExportLinks`, `ExportPages`): the descending cursor query, the probe row
  and the `next` link, composed through the printed and parsed header. A client that follows the links sees
  every row once and stops.
- **Patch builder** (`PatchPipeline`): creators, workers, a closer and a collector joined by channels and
  wait groups, as an interleaved step system. No run panics, none gets stuck, and each takes a known number
  of steps.
- **Shadowsocks relay** (`Streams`, `Socks`, `Relay`, `RelayBytes`): both request parsers over buffers
  filled by reads of any size, composed end to end across the two programs, with their outcome for every
  stream of bytes. Server failover (`Failover`, `FailoverOrder`) and the reload of ports and passwords
  (`Reload`, `ReloadRuns`, `ReloadSafety`, `ReloadFiles`) belong to the same programs.
- **Suggestions** (`Suggestions`, `SuggestionTokens`, `SuggestionDelivery`): one owner that applies
  modifications by id, and senders that work from stale snapshots, in any interleaving. What central takes
  is kept apart from what a sender is told: counts, removals and the queue follow the answers that arrive,
  delivery does not.
- **Transport services** (`ServiceLines`, `ServiceSessions`): the start-up lines one process prints and
  another recognises.
- **Connections** (`Connections`, `Histories`, `HistorySlices`, `Rotation`, `Settings`, `SettingsAnswers`):
  bounded histories and the array they share with listeners, the shuffled rotation list, and the settings
  handlers that must never empty it.
- **Analysis** (`Analysis`): a persisted cursor over a growing table, across ticks and restarts.
- **Smaller cores**: nested error aggregates (`Aggregates`), IPv4 scrubbing (`Scrubbing`), the proxy
  auto-configuration script (`Pac`, `PacRoutes`) and single-use keys (`AuthKeys`).

Where the program keeps state it changes, the model is a class whose methods are proved against
functions of the old state; the theorems are lemmas about those functions. Channels, wait groups and
goroutines are modelled as step systems, and a run is any sequence of steps.

Some promises do not hold of the program as it stands. Each has a lemma at a concrete input that shows it
and a theorem that says exactly when the promise holds:

- `LinkLists.QuoteLost`, `LinkLists.RoundTripExact`: values are printed without escapes, so quotes and
  backslashes are lost.
- `Relay.LongDomains`, `Relay.EncodedBack`: the end of a domain is computed in one byte; domains over 250
  bytes (client) or 253 bytes (server) end in a panic.
- `SuggestionDelivery.DeliveredTwice`, `SuggestionDelivery.LostAnswerDeliversTwice`,
  `SuggestionDelivery.StartExact`: a sample can be delivered twice exactly when a send is started while
  another send of the suggestion is running, or while a sample is queued that central took although its
  post ended in an error.
- `ServiceSessions.CarriageReturnLost`, `ServiceSessions.LineExact`: an address that ends with a carriage
  return passes the printer's safety test but is read back without it.
- `Settings.PostCanBreak`, `Settings.PostProtects`, `Settings.PostKeeps`: posting over an existing entry can
  replace a protected connection, although the field's comment says that users cannot delete or modify one
  (pkg/client/api.go:175), and a pasted text that carries a `disabled` flag can leave no connection enabled.
- `Connections.IdsClash`, `Connections.IdExact`: identifiers are digests of joined fields, so different
  connections share one exactly when the joined text can be split in more than one place.
- `ReloadRuns.TwoStartsExit`, `ReloadRuns.ReloadExact`, `ReloadSafety.SafeExact`: a reload goes wrong
  exactly when it looks a port up before an earlier start of that port has registered, or a served port is
  in neither table; it can be started safely exactly when nothing is pending and every served port is in one.
- `ReloadRuns.PortForgotten`, `ReloadRuns.AfterEmptyFile`: a file without ports makes the next reload forget
  ports.
- `HistorySlices.SeenStays`: a history of twenty-one events, once handed to a listener, changes with the
  next event of its connection.
- `Analysis.UnsavedRepeats`, `Analysis.RestartExact`: a restart analyses rows again exactly when some were
  dispatched above the stored cursor.
- `Analysis.LateIsLost`, `Analysis.DispatchedExactly`: a row that becomes visible after a row with a larger
  id is never analysed.
- `Aggregates.NestingStays`, `Aggregates.FlatExactly`: filtering does not flatten, although its comment says
  so (pkg/shared/errors/errors.go:100-102).
- `Pac.NotIdempotent`, `Pac.IdempotentExact`: a leading dot is lost from a domain.
- `Pac.LeadingZeroTen`, `Pac.PrivateExact`: `010.0.0.1` is not taken as private.

## Model

| member | source | states |
|---|---|---|
| LinkHeader.ConsumeValue | pkg/shared/linkheader/link.go:134-158 | the quoted-value loop computes the recursive unescaping and what follows the closing quote, or nothing |
| LinkHeader.ConsumeParam | pkg/shared/linkheader/link.go:160-185 | one parameter is read as the specification says; empty values are rejected, empty names are not |
| LinkHeader.ParseParams | pkg/shared/linkheader/link.go:75-111 | the parameter loop keeps the first non-empty rel and the last value of any other name |
| LinkHeader.Parse | pkg/shared/linkheader/link.go:58-115 | the link loop parses the trimmed header as the recursive specification says, with its four errors |
| LinkForms.HeaderRead | pkg/shared/linkheader/link.go:58-185 | every header that writes links with any mixture of token and quoted, escaped values and any spaces around them is parsed into exactly what it means: each URI, the first relation, the last value of every other name in lower case |
| LinkForms.TokenRel | pkg/shared/linkheader/link.go:86-132 | an unquoted relation is read whole, whatever follows it after a semicolon, a comma or nothing |
| LinkForms.TokenAlone | pkg/shared/linkheader/link.go:58-132 | an unquoted relation alone makes a link |
| LinkForms.TokenParam | pkg/shared/linkheader/link.go:86-132 | any other unquoted value is read whole under its lower-case name, and reading goes on after it |
| LinkForms.EscapedBack | pkg/shared/linkheader/link.go:134-158 | reading undoes escaping for every value |
| LinkForms.ErrorsExact | pkg/shared/linkheader/link.go:65-111 | each kind of bad text has its own one of the four errors, at the start of a link and after any parameters |
| LinkHeader.SortStrings | pkg/shared/linkheader/link.go:33-37 | the names of a link's parameters in the one ascending order |
| Sequences.SortedUnique | pkg/shared/linkheader/link.go:33-37 | a set has only one sorted list, so the printed text does not depend on map iteration, and neither does the descending query answer |
| LinkHeader.WriteLink | pkg/shared/linkheader/link.go:27-41 | a link is written as its URI, rel and sorted parameters |
| LinkHeader.Format | pkg/shared/linkheader/link.go:21-45 | the printing loop writes the links in order, separated by commas |
| LinkForms.PrintedExact | pkg/shared/linkheader/link.go:27-53 | the text of a link, in characters: the URI in brackets, the relation, then each parameter once by ascending name |
| LinkRoundTrip.RoundTrip | pkg/shared/linkheader/link.go:21-115 | parsing the printed text of well-formed links gives the same links in order |
| LinkLists.RoundTripExact | pkg/shared/linkheader/link.go:21-115 | any list of links, with any texts in it, comes back if and only if every link is well formed |
| LinkLists.NoShift | pkg/shared/linkheader/link.go:58-115 | no list is read back from text that begins after a comma of its own printed text, so links cannot come back by being read from inside one another's values |
| LinkLists.LoopBefore | pkg/shared/linkheader/link.go:75-111 | the parameter loop gives the same relation and parameters with or without the next link behind it, if it leaves that link unread |
| LinkLists.QuoteLost | pkg/shared/linkheader/link.go:47-53 | a relation with a quote in it does not come back |
| LinkExact.ValuesPlain | pkg/shared/linkheader/link.go:123-185 | printed parameters that are parsed to themselves have only plain values |
| LinkExact.AllRead | pkg/shared/linkheader/link.go:86-111 | every parameter the parser returns is read at some semicolon of the text |
| LinkRoundTrip.ParsedNames | pkg/shared/linkheader/link.go:160-185 | whatever is parsed, parameter names are lower-case tokens other than rel and values are not empty |
| LinkRoundTrip.UnquoteOnlyPlain | pkg/shared/linkheader/link.go:134-158 | a value printed between quotes is read back as itself only if it has no quote, backslash or line break |
| ExportPages.ReadRows | pkg/central/db/postgres.go:160-185 | the row loop returns at most a page and the probe row's id exactly when there is one |
| ExportPages.Handle | pkg/central/export-api.go:66-98 | the handler serves the page under the cursor and the printed links for its first and last id |
| ExportPages.PageServed | pkg/central/export-api.go:66-98 | a request fails exactly when its cursor is no number; otherwise its page is the at most thousand rows with the highest ids under the cursor, descending |
| ExportQuery.RemainingTail | pkg/central/db/postgres.go:146-153 | the query under the last id of a page gives exactly the rows after that page |
| ExportLinks.PageLinks.Current | pkg/shared/linkheader/linkheader.go:43-48 | appends the link of the current page |
| ExportLinks.PageLinks.Next | pkg/shared/linkheader/linkheader.go:36-41 | appends the link of the next page |
| ExportLinks.PageLinks.Header | pkg/shared/linkheader/linkheader.go:64-66 | the header text is the printed links |
| ExportLinks.UriBack | pkg/shared/linkheader/linkheader.go:68-73 | the handler reads from a page's URI the path and cursor that were put into it |
| ExportLinks.HeaderBack | pkg/central/export-api.go:81-91 | the printed header, parsed again, names the following page exactly when there is one |
| ExportLinks.HeaderLinks | pkg/central/export-api.go:81-91 | the printed header, parsed again, is a current link with the first row's id when there are rows and a next link with the last row's id when there is a following page, and nothing else |
| ExportPages.RemainingStable | pkg/central/db/postgres.go:146-153 | rows inserted with larger ids do not change what lies under a cursor |
| ExportPages.CrawlComplete | pkg/central/export-api.go:66-161 | following next links while rows are inserted returns every first row exactly once, descending, and stops after one request per page |
| PatchPipeline.StepInv | pkg/upgradebin/makepatch/makepatch.go:54-109 | every step of every goroutine keeps the invariant |
| PatchPipeline.NeverPanics | pkg/upgradebin/makepatch/makepatch.go:54-109 | nothing is sent on a closed channel, nothing closed twice, no wait group goes below zero, in any interleaving |
| PatchPipeline.OneResultPerJob | pkg/upgradebin/makepatch/makepatch.go:54-109 | when the caller returns, its patches are exactly one result for each job of each query |
| PatchPipeline.NeverStuck | pkg/upgradebin/makepatch/makepatch.go:54-109 | until the caller has returned some goroutine can move |
| PatchPipeline.SendsExact | pkg/upgradebin/makepatch/makepatch.go:54-71 | in every run a creator with jobs left finds the channel open, and waits exactly while six jobs wait in it |
| PatchPipeline.RunLength | pkg/upgradebin/makepatch/makepatch.go:54-109 | every run is finite and every complete run has the same number of steps, given by jobs, queries and workers |
| Streams.Conn.ReadAtLeast | pkg/transport/shadowsocks/shadowsocks.go:52-58 | reads of any size fill the buffer with the stream's next bytes, never past the limit |
| Streams.PulledSplits | pkg/transport/shadowsocks/shadowsocks.go:95-98 | however the stream is cut, what is read and what is left are the stream; it fails only if the stream is too short |
| Streams.PulledUpTo | pkg/transport/shadowsocks/shadowsocks.go:95-98 | reads that may stop at a chunk boundary never pass it |
| Streams.PulledLeaves | pkg/transport/shadowsocks/shadowsocks.go:50-64 | what such reads leave unread is the rest of the front and then the later chunks, still cut where they were |
| Socks.ShakeHands | pkg/transport/shadowsocks/shadowsocks.go:36-71 | the greeting is read as specified, and extra data refused |
| Socks.GetRequest | pkg/transport/shadowsocks/shadowsocks.go:73-146 | the local request parser on a filled buffer computes its specification, including the panic |
| Socks.GetRelayed | cmd/shadowsocks-server/server.go:22-86 | the remote request parser on a filled buffer computes its specification, including the panic |
| Relay.EncodedBack | pkg/transport/shadowsocks/shadowsocks.go:110-146 | an encoded address and port are read back, unless the one-byte end index wraps |
| Relay.OnlyEncoded | pkg/transport/shadowsocks/shadowsocks.go:110-146 | whatever message is read is the encoding of the address and port it is read as |
| Relay.ClientAccepts | pkg/transport/shadowsocks/shadowsocks.go:73-146 | every CONNECT request in every cut is handed on byte for byte from the address type on, refused if overrun, and panics over 250 bytes |
| Relay.ClientOnly | pkg/transport/shadowsocks/shadowsocks.go:73-146 | nothing but a CONNECT request is ever handed on |
| Relay.ServerAccepts | cmd/shadowsocks-server/server.go:22-86 | every encoded address with any payload in any cut gives address and port, and extra plus unread bytes are the payload |
| Relay.GreetingAccepted | pkg/transport/shadowsocks/shadowsocks.go:36-71 | a greeting that ends at a read boundary is consumed exactly |
| Relay.EndToEnd | cmd/shadowsocks-server/server.go:22-86 | greeting, request and relayed bytes compose across both programs: the request is read from what the handshake leaves unread, and host, port and payload arrive |
| Relay.LongDomains | pkg/transport/shadowsocks/shadowsocks.go:140-140 | the longest domains of RFC 1928 panic on either side |
| RelayBytes.GreetingExact | pkg/transport/shadowsocks/shadowsocks.go:36-71 | for every stream in every cut, in the bytes of RFC 1928: which greetings are completed and which are refused for their version, extra data or their end |
| RelayBytes.ClientExact | pkg/transport/shadowsocks/shadowsocks.go:73-146 | for every stream in every cut: which requests the local proxy hands on, with which address and port, and every refusal and panic in the order of its checks |
| RelayBytes.ServerExact | cmd/shadowsocks-server/server.go:22-86 | for every stream in every cut: address, port and payload at the server, and every refusal and panic |
| Failover.Servers.ConnectToServer | pkg/transport/shadowsocks/shadowsocks.go:226-240 | a refusal adds one up to thirty, an accepted dial resets the count, other counts stay |
| Failover.Servers.CreateServerConn | pkg/transport/shadowsocks/shadowsocks.go:246-269 | servers are dialled in the specified order up to the first that accepts; every count in the array is as specified and stays in 0..30 |
| Failover.OrderOnce | pkg/transport/shadowsocks/shadowsocks.go:246-268 | whatever is drawn, each server has exactly one place in the order of dialling |
| Failover.AttemptExact | pkg/transport/shadowsocks/shadowsocks.go:246-269 | no server is dialled twice, a connection results exactly when some server accepts, a failure only after all, neither exactly without servers |
| FailoverOrder.OrderExact | pkg/transport/shadowsocks/shadowsocks.go:246-268 | a server is before another exactly when it has not failed or drew zero while the other has failed and drew another number, or both are in the same group and it is listed first |
| FailoverOrder.AttemptMeaning | pkg/transport/shadowsocks/shadowsocks.go:226-269 | a server is dialled exactly when none ahead of it accepts, and then its count becomes zero or one more, up to thirty |
| FailoverOrder.HealthyFirst | pkg/transport/shadowsocks/shadowsocks.go:246-268 | while a server without failures accepts, none with failures and a draw other than zero is dialled |
| Reload.Server.Add | cmd/shadowsocks-server/server.go:170-174 | the listener is open and registered at its port |
| Reload.Server.Run | cmd/shadowsocks-server/server.go:257-263 | a started goroutine opens its port and registers, or the program exits when the port is in use |
| Reload.Server.Yield | cmd/shadowsocks-server/server.go:165-181 | between two uses of the lock any started goroutines register |
| Reload.Server.Get | cmd/shadowsocks-server/server.go:176-181 | the look-up of a port gives what is registered there now |
| Reload.Server.Del | cmd/shadowsocks-server/server.go:183-192 | one turn of the second loop is a look-up, a close and a deletion with registrations in between |
| Reload.Server.UpdatePortPasswd | cmd/shadowsocks-server/server.go:198-212 | one turn of the first loop is a look-up and, unless the password is the registered one, a close and a start, with registrations in between |
| Reload.Server.StartAll | cmd/shadowsocks-server/server.go:229-234 | the first loop, in any map order and with any registrations between its turns, is a sequence of such steps for every port and returns the dropped ones |
| Reload.Server.CloseAll | cmd/shadowsocks-server/server.go:235-239 | the second loop likewise, for every dropped port |
| Reload.Server.UpdatePasswd | cmd/shadowsocks-server/server.go:216-241 | a reload takes an unreadable, empty or usable file and then steps, interleaved with registrations, until it is done or the program exits |
| ReloadRuns.StepKeeps | cmd/shadowsocks-server/server.go:198-263 | every step of a reload or a registration keeps the invariant, a look-up when no earlier start of its port is pending |
| ReloadRuns.GuardedRunsMatch | cmd/shadowsocks-server/server.go:198-263 | over any interleaving of reloads and registrations with that guard, the listeners match the table whenever no reload is at work and all has registered |
| ReloadRuns.ReloadSettles | cmd/shadowsocks-server/server.go:216-263 | for every interleaving of a reload of a settled server with registrations: no exit, ports with an unchanged password keep their listener, and the map matches the file if and only if no served port is named by neither table |
| ReloadRuns.ReloadTooEarly | cmd/shadowsocks-server/server.go:198-241 | a reload that looks a port up while an earlier start of it is pending never ends right, in any interleaving of what remains |
| ReloadRuns.TwoStartsExit | cmd/shadowsocks-server/server.go:198-263 | a run of two reloads that ends in an exit |
| ReloadRuns.ReloadExact | cmd/shadowsocks-server/server.go:216-263 | both directions, for every interleaving: a reload ends right if and only if each port was looked up after its earlier start had registered, and every served port is in one of the tables |
| ReloadSafety.SafeExact | cmd/shadowsocks-server/server.go:198-263 | before a reload: every interleaving of it ends right if and only if nothing is pending and every served port is in the old or the new table |
| ReloadSafety.Completes | cmd/shadowsocks-server/server.go:198-263 | from every state of a reload some run finishes it and registers what is pending, or exits |
| ReloadRuns.RunsMatch | cmd/shadowsocks-server/server.go:216-263 | over any number of reloads that each begin when all has registered, the listeners match each time all has registered again, and nothing exits |
| ReloadRuns.StartUp | cmd/shadowsocks-server/server.go:353-361 | once all have registered after the start the listeners match the configuration |
| ReloadRuns.AfterEmptyFile | cmd/shadowsocks-server/server.go:223-239 | after a file without ports the next reload, in every interleaving, matches exactly when it names every port served |
| ReloadRuns.PortForgotten | cmd/shadowsocks-server/server.go:223-239 | two ports, an empty file and a file with one port leave the other open |
| ReloadFiles.FileServed | cmd/shadowsocks-server/server.go:216-305 | after any finished reload of a settled server the listeners have just the passwords of the file's table, whatever its single port says; without a table they are the one port, in decimal, with the one password |
| ReloadFiles.StartServed | cmd/shadowsocks-server/server.go:291-361 | the same after any finished start |
| ReloadFiles.SilentChangesNothing | cmd/shadowsocks-server/server.go:216-228 | an unreadable file, or one with neither, leaves every listener and nothing to do |
| Suggestions.Owner.Add | pkg/central/client/client.go:410-411 | stores a new suggestion under its id |
| Suggestions.Owner.Get | pkg/central/client/client.go:311-323 | returns a copy of the suggestion, or nothing for an unknown id |
| Suggestions.Owner.Modify | pkg/central/client/client.go:325-365 | each of the four modifications changes just its suggestion; an unknown id is the owner's panic |
| Suggestions.Removed | pkg/central/client/client.go:343-356 | the rebuilding loop drops just the sample with the id |
| Suggestions.Owner.SendSamples | pkg/central/client/client.go:248-285 | a run counts the samples whose acceptance it was told of and leaves the others queued in order; the three errors |
| Suggestions.StepInv | pkg/central/client/client.go:387-423 | every step of owner, callers and senders keeps the invariant |
| Suggestions.StepTaken | pkg/central/client/client.go:66-84 | every step keeps: what is acknowledged was taken, what was taken was added, and what was taken without an answer is counted among its sender's failures |
| Suggestions.OwnerNeverPanics | pkg/central/client/client.go:413-420 | the owner never meets an unknown id, in any interleaving |
| Suggestions.NothingLost | pkg/central/client/client.go:228-285 | every sample ever added is still queued, or central took it and its sender was told so |
| Suggestions.QueueWhenQuiet | pkg/central/client/client.go:248-285 | once no removal is on its way the queue is what was added, in order, without what was acknowledged; samples whose answer was lost stay queued |
| Suggestions.CountsExact | pkg/central/client/client.go:257-284 | a run's count equals its acknowledged sends |
| SuggestionTokens.RunSteps | pkg/central/client/client.go:387-423 | every run is made by a list of steps each possible when taken, so what is shown of those lists holds of all runs |
| SuggestionTokens.TokenExact | pkg/central/client/client.go:181-245 | in every run a stored suggestion has the token of its last answered request, none before one, and is prepared exactly once adding was declared done |
| SuggestionTokens.SendsExact | pkg/central/client/client.go:248-255 | in every run a send can start exactly when the last answered request for its suggestion brought a token |
| SuggestionDelivery.DeliveredOnce | pkg/central/client/client.go:248-285 | in every run where sends start only while no other send of the suggestion is running and no queued sample's answer was lost, central takes no sample twice |
| SuggestionDelivery.CarelessDeliversTwice | pkg/central/client/client.go:248-285 | from every state such runs lead to, a send started otherwise can deliver a sample twice |
| SuggestionDelivery.StartExact | pkg/central/client/client.go:248-285 | both directions: starting a send is safe if and only if no other send of the suggestion is running and no queued sample was taken with its answer lost |
| SuggestionDelivery.NoErrorsNoneLost | pkg/client/api.go:645-675 | the part a caller sees: if all sends of the suggestion have returned and none reported an error, a send may start |
| SuggestionDelivery.DeliveredTwice | pkg/central/client/client.go:248-285 | two sends beside each other by which central takes one sample twice |
| SuggestionDelivery.LostAnswerDeliversTwice | pkg/central/api.go:416-437 | two sends one after the other by which central takes one sample twice, because the answer to the first is lost after the insertion |
| ServiceLines.FormatLine | pkg/service/server/server.go:297-326 | a line is the keyword and its arguments, or a panic exactly when one of them is unsafe |
| ServiceSessions.PrintedExact | pkg/service/server/server.go:150-193 | the five lines in characters, each printed exactly when its arguments have only characters 1 to 127 without line feed |
| ServiceLines.MethodHandler.PrintVersion | pkg/service/server/server.go:150-157 | prints the version and an error when the required option is missing |
| ServiceLines.MethodHandler.PrintParent | pkg/service/server/server.go:182-185 | appends exactly one PARENT line when its arguments are safe |
| ServiceLines.MethodHandler.PrintExpose | pkg/service/server/server.go:191-193 | appends exactly one EXPOSE line when its arguments are safe |
| ServiceLines.MethodHandler.PrintError | pkg/service/server/server.go:174-176 | appends exactly one ERROR line when its arguments are safe |
| ServiceLines.MethodHandler.PrintDone | pkg/service/server/server.go:162-166 | appends DONE |
| ServiceLines.Service.InitService | pkg/service/service.go:214-253 | the scan loop updates responses and methods as the recursive reader does |
| ServiceSessions.FieldsExact | pkg/service/service.go:176-177 | the recogniser accepts exactly the keyword and three non-empty fields without spaces |
| ServiceSessions.LineExact | pkg/service/service.go:173-240 | an EXPOSE or PARENT line is recognised as itself if and only if its arguments are non-empty, space-free and its address has no final carriage return |
| ServiceSessions.AbsorbedExact | pkg/service/service.go:228-238 | methods are all EXPOSE lines in order, and the last EXPOSE and PARENT decide the responses |
| ServiceSessions.SessionRead | pkg/service/service.go:182-253 | every printed session with DONE succeeds with its methods in order and its last addresses, whatever follows |
| ServiceSessions.LongLineEnds | pkg/service/service.go:215-252 | a line of 65536 bytes or more ends the start-up as if the session had ended before it, with no error |
| ServiceSessions.ErrorFails | pkg/service/service.go:222-225 | a session with ERROR before DONE always fails |
| ServiceSessions.CarriageReturnLost | pkg/service/server/server.go:303-310 | a final carriage return passes the safety test and is lost |
| Histories.ConnectionManager.Append | pkg/service/connectionmanager.go:181-191 | a history is trimmed to twenty when longer, and extended |
| Histories.ConnectionManager.Track | pkg/service/connectionmanager.go:188-215 | the event becomes current, or the connection is dropped when it ended |
| Histories.ConnectionManager.Notify | pkg/service/connectionmanager.go:201-213 | the first success is silent exactly when nothing noisy came before |
| Histories.ToldExact | pkg/service/connectionmanager.go:201-213 | over any log the user is told of each failure, each failed test and each success once, except of a first success with nothing gone wrong before it, and of nothing else |
| Histories.ConnectionManager.Handle | pkg/service/connectionmanager.go:180-227 | one turn of the loop keeps the invariant over the full log and emits the kept history, which ends with the event |
| Histories.HistoriesNext | pkg/service/connectionmanager.go:181-191 | after any run each history is the full log up to 21 events, else its first 20 and its last |
| Histories.CurrentsNext | pkg/service/connectionmanager.go:188-215 | a connection is in currents exactly when its last event is not Ended, and then by that event |
| Histories.CurrentIsLast | pkg/service/connectionmanager.go:108-110 | the current state of a kept history is defined and is the last event, at most 21 are kept |
| Histories.KeptOnly | pkg/service/connectionmanager.go:181-191 | what is kept of a connection are events of that connection, none more often than it was handled |
| HistorySlices.History.Extend | pkg/service/connectionmanager.go:187-187 | appending writes in place when the array has room and else copies |
| HistorySlices.History.Append | pkg/service/connectionmanager.go:181-191 | the trimmed history is extended and handed out, and every history handed out so far reads as stated for the log |
| HistorySlices.SeenStays | pkg/service/connectionmanager.go:183-191 | the next event leaves a history already handed out as it was if and only if that holds at most twenty events or the event equals the one overwritten |
| Connections.Decode | pkg/shared/connection.go:87-127 | a decoded connection carries the identifier of its fields |
| Connections.Encode | pkg/shared/connection.go:55-85 | decoding a shared text gives the connection without flags |
| Connections.IdExact | pkg/shared/connection.go:35-51 | another connection shares the identifier if and only if the joined text can be split at its inner labels in another place |
| Connections.IdsDiffer | pkg/shared/connection.go:35-51 | the identifier of a connection whose text has one split is its alone |
| Connections.PlainIdsDiffer | pkg/shared/connection.go:35-51 | in particular where no address has a T and no transport an S |
| Connections.IdsClash | pkg/shared/connection.go:35-51 | different connections with one identifier |
| Rotation.ShuffleConnections | pkg/service/connectionmanager.go:313-320 | the swapping loop in place computes the order that the random choices pick |
| Rotation.Permutes | pkg/service/connectionmanager.go:313-320 | every choice gives a permutation |
| Rotation.Reaches | pkg/service/connectionmanager.go:313-320 | every permutation is given by a choice |
| Rotation.OneChoiceEach | pkg/service/connectionmanager.go:313-320 | different choices give different orders of different elements, so uniform choices shuffle uniformly |
| Rotation.FullTurn | pkg/service/connectionmanager.go:160-175 | as many reconnects in a row as there are connections try each once, from any index an earlier list left |
| Rotation.Manager.Start | pkg/service/connectionmanager.go:138-145 | starting uses the first connection, and needs one |
| Rotation.Manager.UpdateConnections | pkg/service/connectionmanager.go:322-336 | the rotation list becomes a permutation of the enabled connections |
| SettingsAnswers.EnabledExact | pkg/service/connectionmanager.go:322-336 | the connections taken over are the entries that are not disabled, in order |
| Rotation.Manager.Reconnect | pkg/service/connectionmanager.go:160-175 | the index is in range of the present list, even a shorter one, and an empty list is waited out |
| Settings.ClientSettings.Toggle | pkg/client/api.go:204-242 | the handler flips the last connection with the identifier unless it is the only enabled one |
| Settings.ClientSettings.Delete | pkg/client/api.go:246-288 | the handler removes the connections with the identifier unless one is protected or none stays enabled |
| Settings.ClientSettings.Post | pkg/client/api.go:292-382 | the handler appends or replaces, or rejects with every reason in order |
| SettingsAnswers.ToggleExact | pkg/client/api.go:204-244 | when each answer is given, by the entries alone: only the last entry with the identifier is flipped, unless it is the only enabled one; an unknown identifier is not found |
| SettingsAnswers.DeleteExact | pkg/client/api.go:246-290 | not found, forbidden and done each have their exact condition; done removes every entry with the identifier, at least one, and keeps the others in order; otherwise the list stays |
| SettingsAnswers.PostExact | pkg/client/api.go:292-386 | accepted exactly when the text decodes, the identifier is empty or known and the object is not listed; then it is appended or replaces the last entry with the identifier |
| SettingsAnswers.ReasonsExact | pkg/client/api.go:304-368 | a rejection gives each reason that applies, once, in the order of the checks |
| Settings.ToggleKeeps | pkg/client/api.go:218-234 | a toggle keeps one connection enabled, none twice, and the protected ones |
| Settings.DeleteKeeps | pkg/client/api.go:251-282 | a deletion keeps one connection enabled, none twice, and the protected ones |
| Settings.PostKeeps | pkg/client/api.go:300-377 | a post keeps the list sound if and only if it does not disable the only enabled connection; it never makes a duplicate |
| Settings.PostProtects | pkg/client/api.go:370-376 | a post keeps every protected connection if and only if it does not replace one |
| Settings.PostCanBreak | pkg/client/api.go:370-376 | one accepted post that replaces a protected connection and leaves nothing enabled |
| Settings.SharedByEncode | pkg/shared/connection.go:55-85 | texts made by sharing a connection carry no disabled flag |
| Settings.RunKeeps | pkg/client/api.go:204-386 | after any run of requests with shared texts a connection is enabled, none is twice, and the list for the manager is not empty |
| Settings.RequestProtects | pkg/client/api.go:204-386 | a request keeps every protected connection if and only if it is not an accepted post over one |
| Settings.RunProtects | pkg/client/api.go:204-386 | any run without an accepted post over a protected entry keeps every protected connection |
| Settings.ToggleTwice | pkg/client/api.go:218-234 | toggling again is always allowed and restores the list |
| Settings.HandToManager | pkg/service/connectionmanager.go:322-336 | the list handed over after a sound update gives the manager a non-empty permutation of the enabled connections |
| Analysis.Analyzer.Tick | pkg/central/analysis/analysis.go:140-169 | one tick's loop raises the cursor to the highest id, dispatches the relevant rows in order and stores the cursor when it moved |
| Analysis.DispatchesOf | pkg/central/analysis/analysis.go:148-157 | of an answer just the rows from Central with an HTTP header are dispatched, in their order |
| Analysis.TickKeeps | pkg/central/analysis/analysis.go:140-169 | every tick keeps: dispatched rows are exactly the relevant rows up to the cursor that were not late, once each |
| Analysis.DispatchedExactly | pkg/central/analysis/analysis.go:122-169 | each relevant row is dispatched exactly once if it became visible above the cursor and never otherwise, in whatever order batches arrive |
| Analysis.InOrderExactlyOnce | pkg/central/analysis/analysis.go:122-169 | with rows visible in id order the dispatched rows are exactly the relevant rows above the starting cursor |
| Analysis.StoredCovers | pkg/central/analysis/analysis.go:161-168 | the stored cursor never passes a relevant row that no process has dispatched |
| Analysis.RestartsSkipNone | pkg/central/analysis/analysis.go:122-169 | over any number of restarts, even in the middle of a batch, every relevant row is dispatched |
| Analysis.RestartsRepeatNone | pkg/central/analysis/analysis.go:122-169 | when every cursor is stored and no process stops within an answer, restarts dispatch no row twice |
| Analysis.RestartExact | pkg/central/analysis/analysis.go:122-169 | a restarted process that gets an answer repeats no row if and only if no row was dispatched above the cursor it starts from |
| Analysis.UnsavedRepeats | pkg/central/analysis/analysis.go:161-168 | a failed store followed by a restart dispatches a row twice |
| Analysis.LateIsLost | pkg/central/db/postgres.go:382-388 | a smaller id that becomes visible after a larger one is lost |
| Aggregates.MatchesError | pkg/shared/errors/errors.go:89-96 | true exactly when some matcher accepts |
| Aggregates.FilterOut | pkg/shared/errors/errors.go:75-86 | filtering an error computes the recursive specification |
| Aggregates.FilterErrors | pkg/shared/errors/errors.go:102-111 | filtering a list computes the recursive specification |
| Aggregates.Flatten | pkg/shared/errors/errors.go:115-133 | flattening an aggregate gives its leaves in order, or nothing |
| Aggregates.LeavesInOrder | pkg/shared/errors/errors.go:115-133 | the leaves of an aggregate are those of its errors from the first to the last |
| Aggregates.FilteredLeaves | pkg/shared/errors/errors.go:75-111 | the leaves after filtering are the leaves no matcher accepts, in order |
| Aggregates.KeptLeaves | pkg/shared/errors/errors.go:75-111 | filtering keeps just the leaves that every matcher refuses, at ascending places of the original |
| Aggregates.FlattenAfterFilter | pkg/shared/errors/errors.go:75-133 | flattening after filtering gives just those leaves; filtering gives nil exactly when there are none |
| Aggregates.FilteredClean | pkg/shared/errors/errors.go:31-36 | results contain no nil and no empty aggregate at any depth |
| Aggregates.FilterTwice | pkg/shared/errors/errors.go:75-111 | filtering by f and then g equals filtering by both at once |
| Aggregates.FlatExactly | pkg/shared/errors/errors.go:98-111 | a filtered aggregate is flat if and only if its nested aggregates lose all their leaves |
| Aggregates.NestingStays | pkg/shared/errors/errors.go:98-111 | an aggregate in an aggregate, filtered by nothing, stays nested |
| Scrubbing.OctetsExact | pkg/shared/utils.go:97-100 | the pattern's alternatives match exactly the decimal numbers up to 255 without leading zeros |
| Scrubbing.MatchedExact | pkg/shared/utils.go:94-95 | a match is an address, and text that begins with an address is matched |
| Scrubbing.CleanedExact | pkg/shared/utils.go:88-100 | at each place the longest address that begins there becomes "[scrubbed]", and where none begins the character stays |
| Scrubbing.Cleaned | pkg/shared/utils.go:88-92 | the cleaned text contains no address anywhere, and cleaning it again changes nothing |
| Scrubbing.ChangedExactly | pkg/shared/utils.go:88-92 | text is changed if and only if it contains an address |
| Scrubbing.OnlyAddressesReplaced | pkg/shared/utils.go:88-92 | just addresses are replaced and all text between them is kept in order |
| Pac.HostIsIP | pkg/pac/pacImpl.js:14-39 | the label loop decides whether a host is an address and whether it is private |
| Pac.PrivateExact | pkg/pac/pacImpl.js:29-37 | an address is private if and only if it is in the blocks of RFC 1918 section 3 or loopback, unless ten has a leading zero |
| Pac.LeadingZeroTen | pkg/pac/pacImpl.js:29-29 | 010.0.0.1 is an address in a private block and is not taken as private |
| Pac.LabelsJoin | pkg/pac/pacImpl.js:15-15 | splitting is the inverse of joining labels with dots |
| Pac.DomainExact | pkg/pac/pacImpl.js:53-70 | the index arithmetic gives the last two labels, or three under a registry, except that a leading dot is lost |
| Pac.IdempotentExact | pkg/pac/pacImpl.js:41-71 | the domain of a name with a dot is its own domain if and only if it does not begin with an empty label (or the leading dot was dropped harmlessly) |
| Pac.DomainIdempotent | pkg/pac/pacImpl.js:41-71 | with at least two labels, none empty, the domain is a label-aligned suffix of two or three labels and its own domain |
| Pac.NotIdempotent | pkg/pac/pacImpl.js:53-70 | the domain of .com is com, whose domain is empty |
| Pac.Table | pkg/pac/pacImpl.js:2-10 | the lookup loops build the set of the listed hosts |
| Pac.AlwaysDirect | pkg/pac/pacImpl.js:73-86 | dotless hosts, private addresses and directly listed hosts go direct, whatever is blocked |
| Pac.RoutedAsDomain | pkg/pac/pacImpl.js:73-86 | an unlisted host gets its domain's verdict |
| PacRoutes.RouteExact | pkg/pac/pacImpl.js:73-86 | for every host and the generated lists: direct exactly when host or domain is listed as direct or empty, blocked exactly when neither is and one of them is blocked, the default way exactly otherwise |
| PacRoutes.FtpDirect | pkg/pac/pacImpl.js:74-75 | ftp goes direct whatever the lists say |
| PacRoutes.DomainIs | pkg/pac/pacImpl.js:41-71 | the domain of every host, by its labels: none, the address itself, or the last two or three labels |
| PacRoutes.ListsExact | pkg/pac/jstemplate.go:12-19 | the generated lists hold the given names, the empty name as direct and the own domain as blocked |
| PacRoutes.RegistryExact | pkg/pac/pac.go:27-36 | the registries are these eight names |
| PacRoutes.OwnSiteBlocked | pkg/pac/pac.go:132-149 | the program's own site and its subdomains are blocked for every list that does not name them direct |
| AuthKeys.KeyStore.Authenticate | pkg/client/http.go:165-174 | a key is used up and accepted only before its lifetime ends |
| AuthKeys.KeyStore.New | pkg/client/http.go:175-192 | the drawn key is issued now |
| AuthKeys.KeyStore.Cleanup | pkg/client/http.go:194-202 | the loop removes exactly the entries past their lifetime |
| AuthKeys.CleanupExact | pkg/client/http.go:194-202 | after a cleanup the store holds exactly the issued, unpresented keys whose lifetime is not over |
| AuthKeys.AnswerExact | pkg/client/http.go:165-202 | a key is accepted if and only if it was issued less than its lifetime ago and not presented since |
| AuthKeys.AtMostOnce | pkg/client/http.go:165-192 | a key is accepted at most as often as it is issued |
| AuthKeys.CleanupsInvisible | pkg/client/http.go:194-202 | inserting cleanups anywhere changes no later answer |

## Left out

- Reload.Server.Run: listening fails only on a port in use; the program also exits on any other listen error, such as a malformed port in the file, and that is not modelled. Ports are compared as text, as in the program's own table: a TCP port with two spellings in one file ("8388" and "08388") is in use at its second start and ends the program. Opening a port and registering it are one step: in between only another start of the port can notice, and then the program exits in either order.
- Reload.Server.UpdatePasswd: ghost fields say where the reload is, and a schedule stands for which goroutines get the lock; a closed port is free at once.
- Rotation.Manager.Start: needs a non-empty list, as the program indexes it without a test; Settings.RunKeeps supplies it.
- Suggestions.Owner.SendSamples: describes a run with nobody else at work; runs beside other goroutines are the step system's.
- Suggestions.NothingLost: what central takes after its sender has gone on counts as taken from the moment the sender goes on.
- The digest behind identifiers and the text encodings are taken to be injective.
- Histories.ConnectionManager.Handle: histories are values there; the array they share with listeners is modelled for one connection at a time, in HistorySlices.
- Text is Unicode text: invalid UTF-8 in a Link header is not modelled.
- Hosts are kept as address and port; rendering them with a colon, brackets or IPv6 abbreviation is not modelled.
- Only the `id_max` query parameter of a page URI is modelled, and paths are free of `?` and `>`; escaping of other parameters is URL library code.
- Rows are assumed readable, database errors on export are not modelled, and an answer of the analysis query is complete.
- The client's database cursor is read successfully at the start of the analysis; the scoring and publishing of sessions are left out.
- Fatal exits on job and patch errors (the process ends) and the removal of temporary files are left out of the patch builder.
- Resetting all suggestions, which only tests do, and listing them all are left out.
- Random identifiers of suggestions and samples are assumed fresh; random keys may repeat.
- The shadowsocks cipher is transparent, sockets are cut byte streams, and dials are a function of the server.
- Unsynchronised concurrent access to fail counts, timers, liveness of the manager's unbuffered sends and retests are left out.
- Numbers in the proxy script are decimal labels, and inherited object properties as table keys are not modelled.
- Sessions that end without DONE are read as successful, as in the program.
- The HTTP handlers around all of this, the browser interface, translations, logging, the release tools and country tables are left out: thin wiring or data.
- Host files, browser codes and the service registry are left out because they would add only easy members.
