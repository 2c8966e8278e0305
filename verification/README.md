# Verification of the NS-lab socket programs

Dafny models of the programs in this repository that hold real logic, and proofs about them. Each
loop of a program is a method proved against a function on values; the laws are lemmas about those
functions. `dafny verify dfyconfig.toml` checks everything.

| files | program | what is modelled |
|---|---|---|
| `ClientTable`, `ChatServer`, `ChatIdentity`, `ChatAtomicity`, `ChatDelivery`, `ChatWrites`, `ChatGuards`, `ChatRemovals`, `ChatLifetime`, `ChatConversation`, `ChatDeparture`, `ChatCollision` | A5/server.c | the five-slot table as a class over an array, and the acceptor and handler threads as a transition system in which every iteration of a critical section is a step of its own |
| `Sampling` | A5/server.c | the rejection sampler behind the client ids |
| `InternetChecksum`, `PacketChecksum` | A4/41.c | `csum`, and the two places that store its result in a packet |
| `Rotation`, `CipherPipeline`, `SizedTransfer` | A3 | the rotation cipher, its printed form, the size-prefixed transfer |
| `Catalogue`, `Customers`, `ShopSession`, `ShopLaws`, `ShopCustomers`, `ShopClient` | NS Lab debashish/CN1 | catalogue search and stock update, the linked list of customers, whole sessions, the client |
| `FileTransfer`, `FileServing` | A2 | request records, chunked transfer in every schedule, the server's sessions |
| `Calculator` | A1/B/server.c | the expression scanner |
| `Decimal`, `CStrings`, `Streams` | C library and sockets | `%d`, `atoi` and the integer directive of `fscanf`; zero-terminated strings; a stream that may be received in any chunks |

## Assumptions

- A socket is a first-in first-out stream; `Pipe.Recv` may return any non-empty part of it. In
  the shop each message is read on its own, as the server's pause between them intends.
- The mutex is a lock that one thread holds at a time. `ChatDelivery`, `ChatGuards` and
  `ChatRemovals` allow any cids and writes that fail at any point. `ChatLifetime` assumes that a new
  client does not draw the cid of one that is still alive, which is sufficient; `ChatGuards` and
  `ChatRemovals` have the exact conditions.
- Shop orders fit the buffers of both programs (`ShopSession.Fits`): less than 31 characters, and a
  quantity of at most four (`ShopClient.OrderFitsIff`).
- `int` has 32 bits, `long` has 64, and `char` is signed. In `calc` a signed overflow and a
  division by zero are outcomes of their own; a right shift of a negative number is arithmetic.
- The clock, uninitialised variables and the values of `random()` are parameters.

## Where the programs do not do what they are for

- `calc` is right exactly for operands up to 2147483599 (and a result in range); a blank before the
  second operand makes it answer 0 (`CorrectExactlyWithinRange`, `BlankBeforeOperandIsLost`).
- The cipher loses the characters 128 to 254 (`RoundTripIff`).
- The IP checksum of 41.c covers more than the header, and no receiver summing the header accepts
  it (`HeaderVerifiesIff`, `ShippedIpHeaderIsRejected`).
- A file name shorter than the word "upload" or "download" keeps the tail of that word, one of ten
  characters is not terminated, and a longer one overruns the buffer: an upload and a later
  download of one name meet only for eight or nine characters (`SameStoredNameIff`).
- A refused order with more than 127 pieces left is misreported, sometimes as placed
  (`RefusalReportedIff`, `RefusedOrderReportedPlacedIff`). Such customers enter the list of successful
  ones (`CustomersArePurchasersIff`, `RefusedOrderReportedPlaced`).
- A chat client that removes itself while another one with its cid stands before it in the table
  stays there after its record is freed (`LifetimeIffGuarded`, `CollidingCidsLeaveFreedRecord`). That
  other client loses its slot and receives nothing more. The guard for the records' lifetime does not
  protect it: a client that found the table full may leave and take a namesake out of it
  (`RemovalsOwnIffUnpreceded`, `NoNamesakeFirstIsStronger`).
- If the first receive of the encrypted file's server takes more than the size record, the file
  loses what was taken (`ReceivedIff`).

## Model

| member | source | states |
|---|---|---|
| ChatDelivery.TotalOrderBroadcast | A5/server.c:60-118 | in every interleaving, with writes failing anywhere, what a client has been sent is the lock-ordered broadcast log filtered to broadcasts by another cid that reached a slot it was in; during a broadcast at most one text more |
| ChatDelivery.Linearizable | A5/server.c:60-118 | whenever the mutex is free, table and sockets are as if the finished critical sections had run one after the other |
| ChatDelivery.LogIsDeliveries | A5/server.c:97-118 | for any well-formed history of critical sections, each client's output is exactly its filtered log |
| ChatDelivery.SameOrder | A5/server.c:97-118 | two clients see the broadcasts that both receive in the same order |
| ChatDelivery.StampsIncrease | A5/server.c:97-118 | deliveries follow the order of the log, each being the text of its log entry |
| ChatDelivery.HolderReleases | A5/server.c:62-117 | from every reachable state with the mutex held, the holder's own steps alone give it back with one event more, after at most six iterations, whatever becomes of its writes |
| ChatWrites.FailedWrite | A5/server.c:106-112 | a failed write delivers nothing to anybody and leaves the loop at that slot |
| ChatWrites.SuccessfulWrite | A5/server.c:106-113 | a write that succeeds adds the text to that client's log only, and the loop goes on |
| ChatWrites.NoWrite | A5/server.c:102-115 | empty slots and clients with the sender's cid are passed over; behind the last slot the loop ends |
| ChatWrites.WholeBroadcast | A5/server.c:97-118 | if writing fails exactly for given clients, a broadcast reaches the slots before the first of them that is a recipient, or all five; everybody of another cid before it gets the text once, and nobody else |
| ChatWrites.BrokenSockets | A5/server.c:97-118 | in every interleaving in which writing fails exactly for given clients, these are never sent anything, and every broadcast of the history gets as far as the first of them among its recipients; without them each goes through the whole table |
| ChatWrites.FreedRecordFaults | A5/server.c:84-106 | a loop that looks at a slot with a freed record is recorded as a fault, and nothing else is |
| ChatLifetime.DeliveredToMembers | A5/server.c:97-118 | with distinct live cids and no failed write each client has been sent exactly the broadcasts by others made while it was a member; the table is a set of at most five that ignores an addition when full |
| ChatLifetime.NoUseAfterFree | A5/server.c:187-189 | with distinct live cids no slot ever refers to a freed record, none is ever dereferenced, no client has two slots |
| ChatGuards.LifetimeIffGuarded | A5/server.c:77-95 | whatever cids are drawn, no client that has its removal behind it is in the table at any moment of a run up to a state with the mutex free, if and only if every handler that took the lock to remove itself was not in the table or stood there before all others with its cid |
| ChatGuards.GuardedRunHasNoFault | A5/server.c:77-95 | in such a run no slot ever refers to a freed record and none is ever dereferenced |
| ChatGuards.StepKeepsSafe | A5/server.c:60-118 | every step of every thread that meets the guard keeps this |
| ChatRemovals.RemovalsOwnIffUnpreceded | A5/server.c:77-95 | whatever cids are drawn, in a run up to a state with the mutex free nobody is ever taken out of the table by another client's removal if and only if nobody took the lock to remove itself while another client stood first under its cid |
| ChatRemovals.UnprecededIsGuarded | A5/server.c:77-95 | runs with that property also keep freed records out of the table |
| ChatLifetime.NobodyRemovedByAnother | A5/server.c:77-95 | with distinct live cids clients leave the table by their own removal only |
| ChatLifetime.DistinctIsGuarded | A5/server.c:236-243 | distinct live cids make every removal meet both guards |
| ChatLifetime.RemovalKeepsLifetime | A5/server.c:77-95 | with distinct live cids every iteration of a handler's removal clears the handler's own slot or nothing, leaves no trace of it at the end, and keeps the lifetime invariant |
| ChatLifetime.TableRefinesSet | A5/server.c:60-95 | along every history the slots hold exactly the members of the bounded set |
| ChatCollision.CollidingCidsLeaveFreedRecord | A5/server.c:77-95 | for every cid there is an interleaving in which two clients drew it, one is freed and still in the table, and the other is alive and has lost its slot |
| ChatConversation.NothingLostOrRepeated | A5/server.c:131-186 | in every interleaving a handler's completed broadcasts and the one in progress are its join line, the non-empty texts received and the leave line at end of stream, in that order |
| ChatConversation.FromSocketToSocket | A5/server.c:97-186 | what a client has been sent by another one's handler is taken in order from what that one's socket called for, and all of it if each broadcast reached the receiver |
| ChatDeparture.LeavesIffEnded | A5/server.c:144-188 | in every interleaving a handler has its leave flag set, or is past its loop, if and only if its client's stream has ended or a receive has failed |
| ChatDeparture.NothingReceivedAfterEnd | A5/server.c:146-178 | nothing is received for a client after that |
| ChatDeparture.ReadyUnlessLeaving | A5/server.c:144-151 | until then a handler in its loop is ready to receive, and after it to leave |
| ChatDeparture.DepartureCompletes | A5/server.c:173-191 | once the stream has ended, whenever the handler has the mutex or can get it, at most 19 steps of its own lead to its end with its removal in the history |
| ChatAtomicity.StepKeepsAtomic | A5/server.c:60-118 | every step of every thread keeps mutual exclusion and the simulation of the atomic server |
| ChatAtomicity.ScanRoom | A5/server.c:65-72 | one loop iteration under the mutex advances its own critical section on an otherwise unchanged room |
| ChatIdentity.StepKeepsTableIdentity | A5/server.c:231-246 | a record is added once, by the acceptor and before its handler exists, and never stands in two slots |
| ClientTable.RemovesOwnIff | A5/server.c:77-95 | removal by cid takes a client out of the table exactly when no other client with that cid stands before it: the guard of the lifetime theorem |
| ClientTable.ClearsOnlyOwnIff | A5/server.c:82-92 | removal by cid leaves the slots of all other clients alone exactly when whoever stands first under the cid, if anybody, is the client itself |
| ClientTable.NoNamesakeFirstIsStronger | A5/server.c:82-92 | that guard implies the one for the own slot, and fails for a client that is not in the table while a namesake is |
| ClientTable.RemovedClearsOne | A5/server.c:82-92 | removal clears at most one slot, one that held the cid |
| ClientTable.MembersOfAdded | A5/server.c:65-72 | adding is insertion into the set of members, or nothing when all slots are taken |
| ClientTable.MembersOfRemoved | A5/server.c:82-92 | removing takes exactly the first holder of the cid out of the set, which is everybody with that cid when cids are distinct |
| ClientTable.LogAfterBroadcast | A5/server.c:102-115 | a broadcast writes the text once to every client in the slots reached that has another cid |
| ClientTable.ChatTable.AddClient | A5/server.c:60-75 | the client goes into the first free slot of the array, if there is one |
| ClientTable.ChatTable.RemoveClient | A5/server.c:77-95 | the first slot holding the cid is cleared |
| ClientTable.ChatTable.SendMsg | A5/server.c:97-118 | the text is written to all recipients before the first one whose socket fails |
| Sampling.RandomAtMost | A5/server.c:31-45 | the first accepted draw, divided by the bin size; no result exactly when no draw is accepted |
| Sampling.AcceptedInRange | A5/server.c:43-44 | an accepted draw is mapped into 0..max |
| Sampling.ExactlyUniform | A5/server.c:31-45 | every result of 0..max has exactly 2^31 / (max + 1) accepted preimages |
| Sampling.CanAcceptIff | A5/server.c:40-43 | the loop can end exactly when max is at most RAND_MAX |
| Sampling.MostDrawsAccepted | A5/server.c:37-43 | the number of accepted draws is 2^31 less its remainder by the number of results, more than half of all |
| PacketChecksum.ComputeCsum | A4/41.c:29-51 | the loop and the two folds compute `Csum` of the range, for odd and negative lengths too |
| PacketChecksum.SumWords | A4/41.c:35-44 | the loop adds up the words of the range and an odd last byte, and the accumulator stays below 2^47 |
| InternetChecksum.TwoFoldsExact | A4/41.c:46-48 | two folds equal the fold loop of section 4.1 of RFC 1071 exactly when the second fold carries nothing out |
| InternetChecksum.FoldLoopValue | A4/41.c:46-48 | folding keeps the residue modulo 65535 and gives zero for zero only |
| InternetChecksum.CsumIsRfc1071Iff | A4/41.c:29-51 | for every length an int can express, `csum` is the checksum of RFC 1071 exactly under that condition |
| InternetChecksum.CsumIsRfc1071 | A4/41.c:35-50 | up to 131076 bytes, odd lengths included, `csum` is the checksum of RFC 1071 |
| InternetChecksum.BoundIsTight | A4/41.c:35-50 | at every greater length some buffer gets a different checksum |
| InternetChecksum.SelfVerification | A4/41.c:98-103 | storing the checksum in its zeroed, evenly placed field makes the buffer sum to zero |
| InternetChecksum.VerifiesIff | A4/41.c:29-51 | a buffer checks as zero exactly when its raw sum is a positive multiple of 65535 |
| InternetChecksum.HeaderVerifiesIff | A4/41.c:103 | a header filled with the checksum of header and rest is accepted alone exactly when the rest sums to a multiple of 65535 |
| InternetChecksum.ByteOrderIndependence | A4/41.c:35-50 | the two byte orders give byte-swapped checksums and store the same bytes (section 2(B) of RFC 1071) |
| InternetChecksum.SwappedBuffer | A4/41.c:35-50 | swapping the bytes of all words swaps the bytes of the checksum |
| InternetChecksum.ReorderedWords | A4/41.c:36-39 | the checksum does not depend on the order of the words (section 2(A) of RFC 1071) |
| InternetChecksum.CombinedChecksum | A4/41.c:131-134 | the checksums of an even prefix and of the rest determine that of the whole |
| PacketChecksum.FillIpChecksum | A4/41.c:98-103 | afterwards the summed datagram checks as zero and only bytes 10 and 11 have changed |
| PacketChecksum.FillTcpChecksum | A4/41.c:118-134 | afterwards source, destination, 0, protocol 6, the length in network order and the segment as sent check as zero, for any data, and only bytes 36 and 37 have changed |
| PacketChecksum.PseudoHeader | A4/41.c:122-126 | its twelve bytes one by one |
| PacketChecksum.ShippedIpHeaderIsRejected | A4/41.c:80-103 | with the data of the program the IP header alone does not check as zero |
| Rotation.DecodeUndoesEncodeIff | A3/h1/server.c:19-22 | for keys 1..31 and every int, decoding undoes encoding exactly for non-negative numbers with bit 31-key clear and for -1 |
| Rotation.EncodeMultiplies | A3/h2/client.c:18-21 | below 2^(31-key) encoding is multiplication by 2^key |
| Rotation.EncodeNonNegative | A3/h2/client.c:18-21 | encoding a non-negative number exchanges its upper and lower part |
| Rotation.NegativeIsDivided | A3/h2/client.c:18-21 | encoding a negative number divides it by 2^(32-key) |
| Rotation.NegativeDecodesToMinusOne | A3/h2/client.c:18-21 | every negative number comes back as -1 |
| CipherPipeline.EncodeLines | A3/h2/client.c:78-90 | the loops write one token and a blank per character and a newline per line |
| CipherPipeline.DecodeText | A3/h1/server.c:109-115 | the loop writes the decoded character of every integer it can read |
| CipherPipeline.DecodedToken | A3/h1/server.c:109-115 | any integer in the text yields its decoded low byte, a zero byte yields nothing, and anything else ends the loop |
| CipherPipeline.PipelineResult | A3/h1/server.c:109-115 | reading back what the client writes for any lines over all characters gives their concatenation, characters from 128 on replaced by 255 |
| CipherPipeline.RoundTripIff | A3/h2/client.c:78-90 | the pipeline is the identity exactly when no character lies in 128..254 |
| CipherPipeline.TokenWithShippedKey | A3/h2/client.c:82-86 | with the programs' key a character below 128 is written as four times its code, every other one as -1 |
| Decimal.DigitsValue | A3/h2/client.c:83 | printed naturals are non-empty digit strings that evaluate to the number |
| Decimal.ScanPrinted | A3/h1/server.c:109 | reading a printed integer recovers it and leaves the text behind it |
| Decimal.ScanPlus | A3/h1/server.c:109 | a plus sign is accepted |
| Decimal.ScanNothing | A3/h1/server.c:109 | a text that begins with neither blank, sign nor digit yields no integer, and 0 for `atoi` |
| SizedTransfer.SendEncrypted | A3/h2/client.c:111-126 | whatever each call sends, offset and remain_data add up to the size, and record and file go out whole |
| SizedTransfer.ReceiveEncrypted | A3/h1/server.c:68-86 | in every chunking the stream is what was taken first, what was received and what is left; the loop ends with the size received or the stream at its end |
| SizedTransfer.ReceivedIff | A3/h1/server.c:68-86 | the received file is the sent one, with nothing remaining, exactly when the first receive ends with the size record; otherwise what was taken is missing |
| SizedTransfer.ReceivedWholeIff | A3/h1/server.c:68-86 | for every first receive the file arrives as sent exactly when the record was taken on its own, or was cut short where its rest goes on like the file and the loop stopped after the file's length |
| SizedTransfer.StopOfCutRecord | A3/h1/server.c:68-86 | after a record cut short behind its digits the loop takes at least the file's length, and exactly that when nothing remains over |
| SizedTransfer.Transfer | A3/h1/server.c:68-115 | both programs together deliver the characters of the lines in every chunking that keeps the record apart |
| Catalogue.Matches | NS Lab debashish/CN1/server.c:136-145 | the comparison loop decides whether the name begins with the text before the dot or the other way round |
| Catalogue.Lookup | NS Lab debashish/CN1/server.c:136-146 | the least index whose name begins with the text or is a beginning of it |
| Catalogue.Purchase | NS Lab debashish/CN1/server.c:131-170 | the least comparable entry is sold from or refused, in place; -2 exactly when there is none |
| Catalogue.ExactLookupIff | NS Lab debashish/CN1/server.c:136-146 | looking up any catalogue name finds exactly that entry if and only if no name begins with another |
| Customers.CustomerList.Insert | NS Lab debashish/CN1/server.c:224-234 | the acyclic list grows by one new node with the printed address at its end |
| Customers.CustomerList.Search | NS Lab debashish/CN1/server.c:235-244 | found exactly when the printed address is in the list |
| Customers.TextIsInjective | NS Lab debashish/CN1/server.c:226 | different addresses are printed differently |
| Customers.TextIs | NS Lab debashish/CN1/server.c:226 | four decimal octets with dots between them, a colon and the port |
| ShopSession.Server.HandleConnection | NS Lab debashish/CN1/server.c:36-83 | messages, stock, list and result of one connection |
| ShopSession.LowerText | NS Lab debashish/CN1/server.c:49 | capitals arrive as the letters 32 codes above them, everything else unchanged |
| ShopSession.Server.Session | NS Lab debashish/CN1/server.c:121-127 | the accept loop's state after any connections |
| ShopLaws.OneConnection | NS Lab debashish/CN1/server.c:158-169 | an entry changes only by accepting an order, by exactly its quantity and time stamp |
| ShopLaws.FailedRead | NS Lab debashish/CN1/server.c:39-47 | a connection whose order cannot be read is told the count only and changes nothing |
| ShopLaws.Conservation | NS Lab debashish/CN1/server.c:158-169 | over any session each stock has lost exactly what accepted orders took, and never becomes negative |
| ShopCustomers.CustomersArePurchasersIff | NS Lab debashish/CN1/server.c:24-78 | over every session the list holds throughout exactly the addresses with a successful purchase, once each, in order of the first one, and the count is their number, if and only if every refusal that passes for a sale goes to somebody who has purchased before |
| ShopCustomers.CountIsPurchasersIff | NS Lab debashish/CN1/server.c:126 | the final count is the number of purchasers if and only if everybody with such a refusal makes a purchase in the session |
| ShopCustomers.SmallStocksListPurchasers | NS Lab debashish/CN1/server.c:36-79 | from stocks up to 127 and without negative quantities the list is always that of the purchasers, and every client is first told their number |
| ShopCustomers.DoneIsPurchaseOrMistake | NS Lab debashish/CN1/server.c:51-73 | "done" is answered exactly to accepted orders and to refusals whose remainder passes for a sale |
| ShopLaws.AnnouncedCount | NS Lab debashish/CN1/server.c:39-42 | every client is first told how many different addresses have been answered "done" so far |
| ShopLaws.DoneMeansAcceptedThroughout | NS Lab debashish/CN1/server.c:51-79 | from stocks up to 127 and without negative quantities "done" is answered exactly to accepted orders, all session long |
| ShopLaws.RefusalReportedIff | NS Lab debashish/CN1/server.c:37-61 | a refusal of an order that fits the buffers is answered with the exact stock left if and only if that is at most 127; when larger ones are answered "done" |
| ShopClient.RunClient | NS Lab debashish/CN1/client.c:46-79 | quantity check, the order in its 31-byte buffer and the interpretation of the replies through it |
| ShopClient.Interpreted | NS Lab debashish/CN1/client.c:64-79 | what each reply means to the client, and that all others are unknown |
| ShopClient.OrderEndToEnd | NS Lab debashish/CN1/client.c:46-79 | for orders that fit the buffers and the first entry comparable with them: stock falls by the quantity if there is enough, nothing else changes, and the report is true exactly when the order is accepted or at most 127 are left |
| ShopClient.OrderByName | NS Lab debashish/CN1/server.c:36-83 | in a catalogue of which no name begins with another, a fruit's name as written there, in small letters, capitals or both, orders exactly that fruit: stock, messages and report |
| ShopClient.OrderHoweverWritten | NS Lab debashish/CN1/server.c:36-83 | the same for any catalogue and the first entry whose name the order begins with or extends |
| ShopClient.OrderFitsIff | NS Lab debashish/CN1/server.c:133 | which orders fit: quantities of at most four digits, and names that leave room in 31 bytes |
| ShopClient.NotSoldIff | NS Lab debashish/CN1/client.c:64-65 | "not sold" is reported exactly when no entry is comparable, or for a refused order with 254 pieces modulo 256 left; in the first case "no_fruit" is answered and nothing changes |
| ShopClient.PlacedIffStockFell | NS Lab debashish/CN1/client.c:63-77 | with stock up to 127 the client says "placed" exactly when the stock fell, otherwise the exact stock left |
| ShopClient.RefusedOrderReportedPlacedIff | NS Lab debashish/CN1/server.c:51-77 | which refused orders are reported as placed and enter the customer list |
| ShopClient.RefusedOrderReportedPlaced | NS Lab debashish/CN1/server.c:51-77 | such orders exist for every fruit name and every stock from 128 to 253: one piece more than there is; as the first of a session it leaves a list of one customer and no purchase |
| FileTransfer.SendRequest | A2/h2/h2.c:50-66 | the two records written through one buffer, what the server reads from them, and when the copies overrun the buffer |
| FileTransfer.NameAtServerIs | A2/h1/h1.c:66-76 | the file name the server finds in its buffer, for names of every length |
| FileTransfer.NameArrivesIff | A2/h3/h3.c:52-66 | the server gets the name unchanged exactly when it is at least as long as the operation word and has less than ten characters |
| FileTransfer.SameStoredNameIff | A2/h1/h1.c:68-103 | upload and download of one name reach the same file exactly for names of eight or nine characters |
| FileTransfer.Peer.SendFile | A2/h1/h1.c:154-174 | the loop sends the file and adds its length to the total |
| FileTransfer.Peer.WriteFile | A2/h3/h3.c:95-115 | in every chunking the loop writes what was sent and adds its length to the total |
| FileTransfer.EverySchedule | A2/h1/h1.c:130-174 | in every schedule of sender and receiver, written, in flight and unread make up the file; it ends within 2 * size + 2 moves, with equal copies and both totals grown by the size |
| FileTransfer.SomebodyCanMove | A2/h1/h1.c:130-174 | no schedule gets stuck before the receiver has finished |
| FileServing.FileServer.Serve | A2/h1/h1.c:63-123 | files, total, answer and outcome of one connection, by what the two receives took |
| FileServing.FileServer.AcceptLoop | A2/h1/h1.c:52-124 | over any connections, whatever their receives take, the total grows by exactly what was written to files and sent down; files are those of the uploads in turn, every download is the file at that moment, and the loop ends early only where the server stops |
| FileServing.LastUploadIsDelivered | A2/h1/h1.c:68-121 | in the accept loop every download delivers the data of the last upload of its name |
| FileServing.UploadSession | A2/h2/h2.c:50-91 | client and server of an upload whose records arrive whole: it is carried out exactly when the server has a name to open |
| FileServing.DownloadSession | A2/h3/h3.c:51-90 | client and server of a download whose records arrive whole: the client gets the stored data, or the server does nothing |
| FileServing.DownloadAfterUpload | A2/h1/h1.c:68-121 | a download after an upload of the same name, with other sessions between, gives the data back for names of eight or nine characters; for shorter ones the upload has no influence, longer ones cannot be uploaded |
| Calculator.Calc | A1/B/server.c:85-129 | the single pass finds the operands before and after the first non-digit and the last non-digit as operator, and is undefined exactly on overflow or division by zero |
| Calculator.ScanFinds | A1/B/server.c:92-110 | one pass, character by character, finds the digits before the first non-digit, all digits after it and the last non-digit |
| Calculator.MeaningOfRequest | A1/B/server.c:92-128 | number, separator, number: the separator's last character decides the operation |
| Calculator.CorrectExactlyWithinRange | A1/B/server.c:92-128 | the answer is the arithmetic one exactly when both operands are at most 2147483599, the divisor is not zero and the result fits |
| Calculator.SumOfOperands | A1/B/server.c:114-116 | with operands in range `+` answers a + b, or overflows |
| Calculator.DifferenceOfOperands | A1/B/server.c:117-119 | `-` answers a - b |
| Calculator.ProductOfOperands | A1/B/server.c:120-122 | `*` answers a * b, or overflows |
| Calculator.QuotientOfOperands | A1/B/server.c:123-125 | `/` answers the q with q * b <= a < (q + 1) * b, and is undefined for b = 0 |
| Calculator.LargeOperand | A1/B/server.c:100-102 | an operand above 2147483599 overflows whatever the operator |
| Calculator.OtherOperatorGivesZero | A1/B/server.c:90-128 | with any other character before the second operand the answer is 0 |
| Calculator.ChainedOperands | A1/B/server.c:92-110 | of three operands the digits of the last two run together and the last operator counts |
| Calculator.BlankBeforeOperandIsLost | A1/B/server.c:104-126 | with a blank before the second operand the answer is 0 |

## Left out

- Catalogue.Purchase: orders whose quantity text is longer than the four characters of its buffer are excluded, and the buffer counts as zero-terminated; `int` overflow of a stock is not modelled.
- Customers.CustomerList.Insert: the 20-byte address field is taken to be large enough.
- FileTransfer.SendRequest: what happens after a buffer is overrun, or an unterminated name opened, is not modelled; C gives it no meaning.
- FileServing.FileServer.Serve: a file that cannot be opened for writing.
- FileServing.UploadSession: a receive that takes only part of a 10-byte record, or more of the stream, is covered by Serve but not by the end-to-end statement.
- CipherPipeline.EncodeLines: reading the source file into ten lines of at most 99 characters; any number of lines of any length are encoded.
- Threads, sockets, files, clocks, `printf`, `sleep`, argument parsing and port checks.
- The log file and the unused counter `cli_count` of the chat server, descriptor reuse, and the time between closing a socket and removing its client.
- Raw packet sending in A4/41.c, A4/42.c and CSB18010.c; the fold of A4/42.c is not the Internet checksum.
- `load_fruits` and `server_exit` of CN1: the loaded catalogue is the initial state.
- A1/A, A1/C, the programs under "Socket Programming in a nutshell" and the A5 client: simpler relatives of what is modelled.
