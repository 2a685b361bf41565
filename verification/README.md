# Verification of the shop

This project models the ordering system of this repository in Dafny: a database process, forked servers
that share one pair of pipes to it, clients that connect over FIFOs, and the files and texts they read
and write. Every module is proved; `dafny verify dfyconfig.toml` checks them all.

| file | what it models |
|---|---|
| `Bytes.dfy` | integers as bytes, `memcpy` |
| `Orders.dfy`, `Products.dfy` | the order and product objects and their byte images |
| `Transport.dfy` | `ensureRead`, `ensureWrite` and length-prefixed frames over any schedule of short reads and writes |
| `Ledger.dfy` | verifying, clamping, recording and debiting as functions on the tables, and their laws |
| `Messages.dfy` | the requests and replies of the pipe protocol and what serving one does |
| `DatabaseServer.dfy` | the database process as a program, refining the two above |
| `SharedPipe.dfy` | any number of servers, one database, one mutex, two bounded pipes: a step system |
| `Relay.dfy` | the forked server and the client's side of the protocol, and the whole way there and back |
| `Cart.dfy` | the client's shopping session |
| `Shop.dfy` | any number of clients with their connections on top of `SharedPipe.dfy`: the whole as one step system |
| `Rendezvous.dfy` | how clients and the main server connect: a second step system |
| `Csv.dfy`, `DotCommand.dfy` | the CSV and C-string printers of the vendored shell against their readers |
| `ConfigFile.dfy` | the configuration automaton against a grammar |
| `Decimal.dfy`, `SqlText.dfy` | digit counts and the queries built with them |

## The main results

- **Shared pipes.** A step is one `read` or `write` of any positive number of bytes. For any number of
  servers and any schedule, the pipes carry only the holder's exchange, every server reads the reply to
  its own request, and the run is one of serving requests one at a time in the order the mutex was taken.
  Exchanges cannot get stuck and are bounded. The mutex is not always released: fetching an empty catalogue
  keeps it, and no exchange takes place afterwards. That is proved, and no liveness is claimed beyond it.
- **The whole shop.** With any number of clients, bounded connections and sends to clients made under the mutex,
  each client gets for each of its requests the verdict of placing it after the calls that took the mutex
  before. Where there is something to sell nothing gets stuck, and every request is answered in boundedly many
  steps once no new ones come.
- **Stock.** Placing an order is all or nothing when its ids are distinct, which the order object guarantees.
  Without distinct ids it is not: a concrete order shows it and the exact condition is proved. Stock left
  plus stock sold is constant over a run, sequential or interleaved, exactly as long as no order is answered
  with an error, and always for orders that come from client sessions.
- **Records and carts.** The recorded lines with an order's id are that order's entries, over every run of orders. A
  cart holds exactly the amounts the user's first valid answers named.
- **End to end.** What the database places is what the client had; what a refused client ends with is what
  the database clamped; the catalogue arrives as it was queried.
- **Addresses.** The client takes addresses of up to 1022 characters. The database's query buffer has room for them
  exactly up to a length that depends on the total and the time, and always up to 941 characters. A longer one
  that overruns it is shown.
- **Rendezvous.** Records in the request FIFO never mix, connections pair up, nobody opens for writing before
  the other side reads, and every run that cannot go on has connected every client.
- **Printers and parsers.** CSV tables come back for exactly the separators stated, and with those every file laid out by
  hand reads as its fields. Quoted arguments come back for any notion of printable character, and the tokens of a
  typed line are its words and quoted texts as documented, but for one escape.
- **Configuration.** The automaton accepts exactly a grammar and keeps the last value of each key. Every file with
  one section that assigns the four keys leaves exactly their values.

## Reading of the source

- `int` is 32 bits, `size_t` 64 bits, both little-endian. Widths, wrap-around and truncation are written out where
  the code depends on them. A `float` is four opaque bytes; totals in queries are whole cents.
- The tables are the state of the SQL database. `check (quantity >= 0)` is an update that fails and changes
  nothing; earlier statements of the same order stay. Order ids are one more than the number of orders.
- The comment on `resolve_backslashes` (`database/SQLite/shell.c:2110-2125`) promises that `\s` becomes a space.
  The code leaves the `s`, and so does the model (`DotCommand.SpaceEscapeIsLost`, `DotCommand.TokenKeepsPromiseIff`).
- The comment on `conn_open` (`common/commWithFIFOs.c:64-66`) has the forked server open the two FIFOs. In the code
  `conn_accept` opens them in the main server (`common/commWithFIFOs.c:210-214`), and the model follows it.
- The configuration reader stores each byte in a `char` and compares it with `EOF`, so a byte 255 ends a line. A
  parameter line named `end` closes a section just as the line `end` does. Unknown parameters are skipped, and
  any section tag but `[addresses]` makes the file fail.
- `getParam` (`common/config.c:399-400`) copies a name without its NUL; the model returns the name. `requestProducts`
  (`client/client.c:193`) allocates too small an array; the model's list has room for all.
- Preconditions say where the code has no answer of its own: orders reaching the database have an address of at
  most 941 characters, known ids and no negative quantities. `Cart.CartIsAcceptable` proves of every order a
  client can submit that this holds exactly when the address is that short.

## Model

| member | source | states |
|---|---|---|
| `SharedPipe.StepKeepsInv` | server/forkedServer.c:78-145 | every lock, single read, single write and unlock of any server or of the database keeps the exchange invariant: who may have bytes in which pipe, how much of them, and which tables hold |
| `SharedPipe.PipesBelongToTheHolder` | server/forkedServer.c:83-107 | in every reachable state with any number of servers: mutex free means both pipes empty, all servers idle and the database at its command read; mutex held means only the holder is in an exchange and the pipes hold exactly its unread rest: what is written of the request and not read, or what is written of the due reply and not read |
| `SharedPipe.RefinesSequentialService` | database/databaseServer.c:359-389 | every interleaved run equals serving the requests whole, one at a time, in the order the mutex was taken: same tables, and each server has read exactly the bytes of the reply to its own request, which parse to that reply |
| `SharedPipe.ExchangeNeverStuck` | server/forkedServer.c:86-94 | as far as the shared pipes go, while a server is in an exchange some process can take a step, however small they are; `Shop.ShopNeverStuck` has the sends to clients as well |
| `SharedPipe.NeverKeptWithCatalogue` | server/forkedServer.c:127-129 | where the catalogue is not empty a held mutex always belongs to a server that is in its exchange |
| `SharedPipe.StepsUseUpWork` | server/forkedServer.c:90-107 | every step of an exchange lowers the number of bytes it has still to move |
| `SharedPipe.ExchangeIsBounded` | server/forkedServer.c:86-107 | so between taking the mutex and leaving there are at most that many steps, whatever the schedule |
| `SharedPipe.MutexKeptIffCatalogueEmpty` | server/forkedServer.c:119-143 | leaving the exchange frees the mutex except after fetching an empty catalogue, when the early return skips the unlock; after that nothing can ever move on the shared pipes |
| `SharedPipe.NothingAfterReturningLocked` | server/forkedServer.c:127-129 | no action is enabled while an idle server holds the mutex |
| `SharedPipe.BalancedIffNoErrors` | database/databaseServer.c:253-280 | serving any list of requests one at a time loses nothing, and stock left plus stock sold is the initial stock for each product exactly as long as no order is answered with an error |
| `SharedPipe.BooksBalanceIffNoErrors` | database/databaseServer.c:150-280 | the same at every moment of every interleaved run, for the calls the database has served by then |
| `SharedPipe.SequentialServiceConserves` | database/databaseServer.c:253-280 | serving any list of requests whose orders name no product twice keeps the books balanced |
| `SharedPipe.StockIsConservedUnderInterleaving` | database/databaseServer.c:150-280 | at every moment of every interleaved run of such requests, stock left plus stock sold is the initial stock for each product, and no stock is negative |
| `Ledger.ClampedIsLargest` | database/databaseServer.c:232-247 | clamping gives a satisfiable sub-order with the same ids in the same order, every satisfiable sub-order lies below it line by line, and it changes nothing exactly when the order was satisfiable |
| `Ledger.DebitIsPointwise` | database/databaseServer.c:208-221 | a debit loop that gets to its end lowers each product by its total over the lines, and no debit makes a stock negative |
| `Ledger.DebitSucceedsIffCovered` | database/databaseServer.c:208-221 | no UPDATE trips the CHECK exactly when every product's total is covered by its stock |
| `Ledger.DistinctLinesCoverTotals` | database/databaseServer.c:232-247 | with distinct ids, checking line by line is checking the totals |
| `Ledger.AllOrNothing` | database/databaseServer.c:253-280 | an order with distinct ids is either accepted, with every line recorded and debited and nothing else touched, or leaves every table as it was and comes back clamped |
| `Ledger.FailsIffOnlyTheTotalIsShort` | database/databaseServer.c:258-266 | the error reply is given exactly when each line alone can be met and some product's total cannot |
| `Ledger.RepeatedIdBreaksAllOrNothing` | database/databaseServer.c:258-266 | a concrete order with a repeated id that is recorded in full, debited in part and answered with an error |
| `Ledger.PlacingKeepsBalanceIffNotFailed` | database/databaseServer.c:253-280 | placing an order keeps stock left plus stock sold unchanged exactly when it does not end in that error |
| `Ledger.PlacingLosesNothing` | database/databaseServer.c:208-221 | whatever becomes of an order, of no product is there less, left and sold together, after it |
| `Ledger.LinesOfSelects` | database/databaseServer.c:172-180 | selecting the recorded lines by an order id keeps exactly the lines with that id, as often as they were recorded |
| `Ledger.RecordingPutsOnRecord` | database/databaseServer.c:150-195 | recording an order adds exactly one order row, with an id no row and no line had before and the order's address; the lines with that id are, in order, the order's product ids and quantities, and every other id keeps exactly its lines |
| `Ledger.PlacingPutsOnRecord` | database/databaseServer.c:253-280 | placing an order that is not refused does just that, debited in full or not; a refused one leaves the tables as they were |
| `Ledger.EveryOrderIsOnRecord` | database/databaseServer.c:150-280 | over every run of orders: selecting the lines by the id of an order row gives back the entries of the order that row was made for, and earlier rows keep their lines |
| `Ledger.StockIsConserved` | database/databaseServer.c:150-280 | over every run of orders with distinct ids the books balance, stocks stay non-negative, recorded rows are never lost and order ids count up |
| `Ledger.ReducedOrderIsAccepted` | database/databaseServer.c:269-277 | the clamped order, submitted next, is accepted as it is |
| `DatabaseServer.Server.GetProducts` | database/databaseServer.c:78-96 | the products in rowid order, each with the id, name, description and price of its catalogue row and the current stock, or -1 for none |
| `DatabaseServer.Server.SendProducts` | database/databaseServer.c:103-125 | the bytes written are the image of the sequential reply: an error code for an empty table, otherwise count and framed products |
| `DatabaseServer.Server.VerifyOrderStock` | database/databaseServer.c:232-247 | answers whether every line can be met and leaves the order clamped in place, address kept |
| `DatabaseServer.Server.StoreVerifiedOrder` | database/databaseServer.c:150-195 | the tables after it are those with the order on record; the order query is the text of the very row inserted, except for a total between minus one and zero, and each line query the text of its row wherever the id is an int; both stay inside their 1024 bytes whatever the total and the time, for every address of at most 941 characters |
| `DatabaseServer.Server.InsertOrder` | database/databaseServer.c:153-167 | appends a row with the next id and the address, which is the row the printed query names |
| `DatabaseServer.Server.InsertLine` | database/databaseServer.c:174-188 | appends the row of the order id, product and quantity the printed query names |
| `DatabaseServer.Server.UpdateStock` | database/databaseServer.c:208-221 | the stock after the debits up to the first one refused, and -1 exactly when one is refused |
| `DatabaseServer.Server.Settle` | database/databaseServer.c:258-270 | tables and reply code are those of placing the order; on refusal the order object holds the clamped order |
| `DatabaseServer.Server.PlaceOrder` | database/databaseServer.c:253-280 | reads exactly one framed order from the stream and writes exactly the image of the reply it is due |
| `DatabaseServer.Server.HandleCommand` | database/databaseServer.c:359-389 | one turn of the main loop refines serving the request in one piece: tables, bytes consumed and bytes written; other codes consume themselves and change nothing, and only the closing one ends the loop |
| `Relay.ForwardOrder` | server/forkedServer.c:79-92 | the client's serialized order reaches the database pipe unchanged behind its code and length, and the mutex is held |
| `Relay.RelayVerdict` | server/forkedServer.c:94-108 | the reply is consumed exactly, goes back as one message for the code and one for the reduced order if there is one, and the mutex is free |
| `Relay.ProcessOrder` | server/forkedServer.c:78-109 | both halves: bytes taken from and put on each of the four streams |
| `Relay.AskForProducts` | server/forkedServer.c:117-124 | the mutex is taken and the command is in the database pipe |
| `Relay.TakeProducts` | server/forkedServer.c:125-145 | the reply is consumed exactly and rebuilt product by product; the mutex is released except after an error reply |
| `Relay.GetProducts` | server/forkedServer.c:116-145 | the products rebuilt are those of the reply, in order; on an error reply the mutex stays held |
| `Relay.PassProducts` | server/forkedServer.c:58-75 | count and products, or the error code, go to the client as the very bytes the database wrote |
| `Relay.ReceiveCode` | server/forkedServer.c:31-37 | the code at the front of the client's stream, taken off it exactly |
| `Relay.HandleMessage` | server/forkedServer.c:24-55 | one turn of the dispatch loop: one request taken from the client, its image put to the database, the reply taken and passed on; other codes move nothing and only the closing one ends the loop |
| `Relay.StartExchange` | server/forkedServer.c:38-44 | the same turn up to the database: the code is read and branched on and the request's image goes to the database, the mutex held |
| `Relay.FinishExchange` | server/forkedServer.c:38-44 | and from there on: the answer taken and passed on by the branch of the same code |
| `Relay.SendProducts` | server/forkedServer.c:57-76 | the client is sent the very bytes the database wrote for each product; the mutex ends held exactly after an error |
| `Relay.SendOrder` | client/client.c:226-236 | the address is set and the order's image sent as code and body |
| `Relay.ReceiveVerdict` | client/client.c:238-258 | -1, 0 or 1 by the reply, and the order replaced by the one received exactly when refused |
| `Relay.AskForCatalogue` | client/client.c:182-183 | the command is sent as one message |
| `Relay.ReceiveCatalogue` | client/client.c:184-202 | the products rebuilt are those sent, in order, or -1 |
| `Relay.RequestProducts` | client/client.c:181-202 | the product list the client rebuilds is the one in the reply, in order |
| `Relay.SubmitEndToEnd` | client/client.c:226-258 | client, frames, the server's dispatch on the code it reads, raw pipes, database and back, with arbitrary short reads and writes: the tables are those of placing exactly the client's order, and a refused client holds exactly the database's clamped order |
| `Relay.CatalogueEndToEnd` | client/client.c:181-202 | the catalogue survives both hops, by the server's dispatch on the code it reads: the client holds the database's products in order, each with its id, name, description, price and current stock, or -1 with the mutex kept for an empty catalogue |
| `Shop.WrappedIsFramed` | common/commWithFIFOs.c:140-146 | a request or reply on a client's connection is its image on the raw pipes with the code framed too |
| `Shop.CoreRuns` | server/forkedServer.c:24-55 | whatever clients do, the servers and the database only take the steps of the shared-pipe protocol, so all its results hold |
| `Shop.StepKeepsInv` | server/forkedServer.c:24-145 | every read, write, lock and unlock of any client, any server or the database keeps what each session is owed, down to the bytes on its connection |
| `Shop.EveryClientGetsItsVerdicts` | client/client.c:226-258 | for any number of clients with bounded connections and every interleaving: each client's results are, in order, the replies the sequential service gives its requests, all of them when it rests and all but the last while it waits |
| `Shop.VerdictIsPlacing` | database/databaseServer.c:253-280 | the verdict on an order is that of placing exactly this order on the tables left by the calls that took the mutex before it |
| `Shop.ShopNeverStuck` | server/forkedServer.c:78-109 | with the sends to clients made under the mutex as steps: where there is something to sell and some client is not at rest, somebody can go on |
| `Shop.StepsUseUpWork` | server/forkedServer.c:24-145 | every step that is not a new request lowers the work left |
| `Shop.RunsAreBounded` | server/forkedServer.c:24-145 | so without new requests no run is longer than that |
| `Shop.EveryRequestIsAnswered` | client/client.c:226-258 | once clients ask no more the shop halts after boundedly many steps, and it halts only with every client at rest and holding all its verdicts |
| `Messages.MessageDelimits` | server/forkedServer.c:90-107 | each read size of a reader is determined by what it has already read and never runs past the end of its message |
| `Messages.MessageRoundTrip` | server/forkedServer.c:90-107 | code, length and payload parts parse back to the message |
| `Messages.RequestRoundTrip` | database/databaseServer.c:253-257 | the request the database parses is the one written |
| `Messages.ReplyRoundTrip` | client/client.c:237-256 | the reply a reader parses is the one written |
| `Messages.WireLayout` | common/comm.h:20-25 | the code each request and reply begins with, and the framed bodies behind it |
| `Messages.ProductsRoundTrip` | server/forkedServer.c:132-142 | a list of product images parses back to the list |
| `Messages.AnswerOfRequest` | database/databaseServer.c:371-379 | the database answers the image of a request with the image of its reply |
| `Transport.EnsureRead` | common/lib.c:8-21 | on success the first bytes of the stream are in the buffer and gone from the stream, the rest of the buffer untouched; on failure fewer bytes were consumed |
| `Transport.EnsureWrite` | common/lib.c:23-36 | on success the stream grew by exactly the bytes offered; on failure by a proper prefix |
| `Transport.Connection.Send` | common/commWithFIFOs.c:140-146 | one frame for a message, nothing for an empty one |
| `Transport.Connection.Receive` | common/commWithFIFOs.c:148-164 | takes exactly the frame at the front |
| `Transport.ParseFramesRoundTrip` | common/commWithFIFOs.c:140-164 | a list of frames parses back to the messages |
| `Transport.FrameLayout` | common/commWithFIFOs.c:140-146 | a frame is eight bytes of length and the message, and frames stand one behind the other |
| `Transport.AllArrive` | common/commWithFIFOs.c:140-167 | of messages that are not empty what is received is at every moment a prefix of those sent, and all of them once nothing is under way |
| `Transport.EmptyOnesAreLeftOut` | common/commWithFIFOs.c:140-143 | an empty message adds nothing to what is delivered |
| `Transport.FramesDelimit` | common/commWithFIFOs.c:148-164 | the next read size is a function of the bytes read so far and ends on frame boundaries |
| `Transport.FramingDelivers` | common/commWithFIFOs.c:140-164 | for every list of messages and every splitting and interleaving of reads and writes on a bounded pipe: the receiver has a prefix of the non-empty messages, can always get further while one is missing, and ends with all of them on a frame boundary |
| `Orders.Order.constructor` | common/order.c:41-47 | no address and no entries |
| `Orders.Order.GetEntryNum` | common/order.c:18-23 | the entry at an index in range, nothing for any other |
| `Orders.Order.SetQuantity` | common/order.c:29-31 | changes the quantity of one entry only |
| `Orders.Order.SetAddress` | common/order.c:70-82 | changes the address only |
| `Orders.Order.Add` | common/order.c:88-107 | adds to the entry with that id, appends a new one while fewer than sixteen, otherwise returns -1 and changes nothing |
| `Orders.AddsBuildOrderedMap` | common/order.c:88-107 | over every run of adds: at most sixteen entries, distinct ids in order of first arrival, quantity the sum asked for, price that of the first add |
| `Orders.RefusalIsFullAndNew` | common/order.c:88-107 | an add is refused exactly when the id is new and sixteen are present; it then changes nothing and never touches another line |
| `Orders.Order.Serialize` | common/order.c:109-131 | the buffer is exactly the order's image, of the computed length |
| `Orders.Unserialize` | common/order.c:133-156 | a buffer that holds an order becomes an object with that order |
| `Orders.OrderRoundTrip` | common/order.c:109-156 | unserializing the image of any storable order gives it back |
| `Orders.OrderLayout` | common/order.c:109-131 | what stands at each offset of the image: address length, address and NUL, number of entries, and id, quantity and price of each |
| `Orders.OrderImage` | common/order.c:109-156 | any buffer that parses is the image of what it parses to, so relaying bytes loses nothing |
| `Orders.AddressRoundTrip` | common/order.c:111-118 | a NULL, an empty and a non-empty address stay apart |
| `Products.Product.SetStock` | common/product.c:104-110 | refuses a negative stock without a change, otherwise sets only the stock |
| `Products.Product.Serialize` | common/product.c:41-61 | the buffer is exactly the product's image |
| `Products.Unserialize` | common/product.c:63-82 | a buffer that holds a product becomes an object with it |
| `Products.ProductRoundTrip` | common/product.c:41-82 | unserializing the image of a product gives it back |
| `Products.ProductLayout` | common/product.c:41-61 | what stands at each offset of the image: id, both lengths and texts with their NULs, price and stock |
| `Products.ProductImage` | common/product.c:41-82 | serializing what was unserialized gives the same bytes |
| `Cart.AddToOrder` | client/client.c:131-155 | if the first answer in range is positive and the order has room, the product's total in the order rises by exactly that answer, its stock falls by exactly that, a new line carries the product's price and every other line stands; in all other cases nothing changes |
| `Cart.AcceptedIsFirstInRange` | client/client.c:139-142 | the amount taken is the first answer between zero and the stock, and there is none exactly when no answer is |
| `Cart.PickedIsMoved` | client/client.c:144-148 | a pick moves exactly its amount from the stock to the order, at the product's price for a new line, and touches no other line |
| `Cart.CartIsWhatWasPicked` | client/client.c:131-155 | over every session of picks, each product's quantity in the cart is the sum of the amounts accepted for it, and its stock is the fetched one less that sum |
| `Cart.FreshCartIsAccepted` | client/client.c:181-258 | any session's cart filled from the catalogue as it stands is accepted in full when it is placed next, with any address of at most 941 characters |
| `Cart.CartAddsUp` | client/client.c:131-155 | over every session of picks and refused submissions: local stock plus cart equals the fetched stock until a submission is refused, never exceeds it after, and both are non-negative |
| `Cart.LinesFitInt` | common/order.c:95-96 | no cart quantity overflows an int, because each line and its local stock fit together |
| `Cart.CartIsAcceptable` | client/client.c:204-235 | every order of a session has distinct known ids and fits the wire; with any address the client takes, the database can serve it exactly when the address has at most 941 characters |
| `Cart.LongAddressOverruns` | database/databaseServer.c:154-165 | a thousand letters, which the client takes for an address, overrun the buffer of the query with an ordinary total and time |
| `Cart.SessionOrdersAreDistinct` | common/order.c:88-107 | calls whose orders come from sessions name no product twice |
| `Cart.ShoppersConserveStock` | database/databaseServer.c:150-280 | over every run of the shop with orders from any sessions, stock left plus stock sold is the initial stock |
| `Cart.RefusalIsAStep` | client/client.c:250-256 | what the database sends on refusal is a sub-order of the cart and differs from it |
| `Rendezvous.PathsAreDistinct` | common/commWithFIFOs.c:222-245 | different processes use four different FIFO paths |
| `Rendezvous.PathsAreNamed` | common/commWithFIFOs.c:77-80 | the paths are /tmp/ and the printed pid with -out and -in |
| `Rendezvous.RecordLayout` | common/commWithFIFOs.c:257-266 | a record is the out path and then the in path, each behind its length and with its NUL |
| `Rendezvous.StepKeepsInv` | common/commWithFIFOs.c:73-127 | every system call of any client or of the server keeps the stream, pairing, opening and acknowledgement invariants |
| `Rendezvous.FifoHoldsWholeRecords` | common/commWithFIFOs.c:247-270 | the request FIFO holds whole records in the order of the lock, then at most the written part of the lock holder's; it is empty when that record has been taken already |
| `Rendezvous.AcceptedConnectionsArePaired` | common/commWithFIFOs.c:190-218 | each accepted connection is one client's with the roles swapped, no two share a FIFO, and a connected client was accepted |
| `Rendezvous.WritersFindReaders` | common/commWithFIFOs.c:112-121 | no end is opened for writing before its peer has it open for reading, and a connected pair is open both ways |
| `Rendezvous.StepsUseUpWork` | common/commWithFIFOs.c:73-127 | every step lowers the work left |
| `Rendezvous.SomeoneCanStep` | common/commWithFIFOs.c:182-220 | while a client is not connected some process can step |
| `Rendezvous.EveryRunConnectsEveryClient` | common/commWithFIFOs.c:73-127 | runs are bounded by the work at the start, and one that cannot go on has connected every client |
| `Rendezvous.SendFifoPaths` | common/commWithFIFOs.c:257-266 | writes exactly the record of the process |
| `Rendezvous.ReadConnectionInfo` | common/commWithFIFOs.c:198-208 | reads exactly one record and swaps the two paths |
| `Csv.Writer.OutputCsv` | database/SQLite/shell.c:830-859 | prints the field bare when it is not empty and needs no quotes, otherwise quoted with quotes doubled |
| `Csv.Writer.OutputRow` | database/SQLite/shell.c:1056-1061 | prints the fields separated and the row end, nothing for a row without columns |
| `Csv.PrintedBareIff` | database/SQLite/shell.c:830-859 | a field is printed bare exactly when it is not empty and has printable ASCII only, without space, quotes or separator |
| `Csv.RowIsLaid` | database/SQLite/shell.c:1056-1061 | a written row is its fields, bare or quoted, separated and ended by a carriage return and a line feed |
| `Csv.ImportCtx.AppendChar` | database/SQLite/shell.c:2317-2327 | the byte is appended and stays within the space allocated |
| `Csv.ImportCtx.ReadOneField` | database/SQLite/shell.c:2342-2402 | text, terminator, characters consumed and line count of the field at the front of the input; NULL at its end only, or for an empty field that allocates nothing |
| `Csv.FileReads` | database/SQLite/shell.c:2342-2402 | for every file laid out with fields bare, quoted or with a quote inside that closes nothing, rows ended by LF or CR LF and the last end optional: reading field by field gives the fields, with the terminator marking each row end or the end of the file |
| `Csv.UnclosedQuoteReads` | database/SQLite/shell.c:2379-2384 | a quoted field that is never closed reads to the end of the file |
| `Csv.StrayCellReads` | database/SQLite/shell.c:2360-2387 | a quote inside a quoted field that something else follows stays in the text |
| `Csv.RowEndsIsCount` | database/SQLite/shell.c:2359-2395 | the line count rises by the number of row separators passed over |
| `Csv.TableReads` | database/SQLite/shell.c:2342-2402 | reading a written table field by field gives every field, none of them as NULL, with the terminator marking the row ends |
| `Csv.TableRegroups` | database/SQLite/shell.c:2342-2402 | splitting at the terminators gives the rows back |
| `Csv.RoundTripIffOrdinarySeparator` | database/SQLite/shell.c:1048-1064 | all tables come back exactly for the ASCII separators other than quote, CR and LF |
| `Csv.OtherSeparatorsLoseTables` | database/SQLite/shell.c:2342-2402 | a concrete table lost for every other separator |
| `DotCommand.OutputCString` | database/SQLite/shell.c:738-764 | the text between quotes with each byte escaped as the printable predicate demands |
| `DotCommand.ResolveBackslashes` | database/SQLite/shell.c:2126-2168 | the token is replaced in place by its resolved text; nothing before or after it changes |
| `DotCommand.RewriteOne` | database/SQLite/shell.c:2130-2166 | one turn writes behind the read position and keeps written part plus what is still to come |
| `DotCommand.Tokenize` | database/SQLite/shell.c:2808-2828 | each of the first fifty tokens is left in the line as a C string |
| `DotCommand.TypedLineIsTokenized` | database/SQLite/shell.c:2808-2828 | for every line of bare words, single-quoted texts, double-quoted texts with any escapes and texts the escaper quoted, with any blanks between them: the first fifty tokens are one for one the single-quoted and escaped texts verbatim, and the others as documented but for the letter left where a space is promised |
| `DotCommand.UnclosedSingleQuote` | database/SQLite/shell.c:2812-2821 | a single quote that is never closed takes in the rest of the line verbatim |
| `DotCommand.UnclosedDoubleQuote` | database/SQLite/shell.c:2812-2822 | a double quote that is never closed takes in the rest of the line, which resolves as documented exactly when it escapes no s |
| `DotCommand.TokenKeepsPromiseIff` | database/SQLite/shell.c:2110-2125 | a token resolves as documented, octal escapes included, exactly when no backslash in it escapes an s |
| `DotCommand.OnlySpacesAreLost` | database/SQLite/shell.c:2126-2168 | and whatever a token escapes, it differs from what is documented at most by letters s in place of spaces |
| `DotCommand.SpaceEscapeIsLost` | database/SQLite/shell.c:2110-2125 | the escape documented as a space resolves to the letter s |
| `DotCommand.PromiseKeptExceptForS` | database/SQLite/shell.c:2110-2125 | each documented escape of one character resolves as documented exactly when it is not the one for a space |
| `DotCommand.EscapingIsUndone` | database/SQLite/shell.c:2126-2168 | resolving undoes escaping for every text and every printable predicate |
| `DotCommand.EscapeForms` | database/SQLite/shell.c:738-764 | a byte is written as two characters exactly for quote, backslash, tab and line ends, else as it is if printable, else as a backslash and three digits, each as documented for the way back |
| `DotCommand.ClosingQuoteIsFound` | database/SQLite/shell.c:2815-2818 | the tokenizer passes over an escaped text and stops at its closing quote |
| `DotCommand.QuotingRoundTrip` | database/SQLite/shell.c:2808-2828 | quoting any list of texts, joining them with spaces after a dot and tokenizing gives the first fifty back |
| `DotCommand.ArgumentsHaveNoNul` | database/SQLite/shell.c:738-764 | the line of NUL-free texts has no NUL |
| `ConfigFile.ReadLine` | common/config.c:340-362 | takes exactly the next line, split at newlines and bytes 255, cut at a NUL and trimmed; the buffer grows by blocks and is never overrun |
| `ConfigFile.LeadingTrim` | common/config.c:320-337 | the C string without its leading blanks |
| `ConfigFile.GetParam` | common/config.c:392-402 | the text before the first equals sign |
| `ConfigFile.GetValue` | common/config.c:382-390 | the text after the first equals sign |
| `ConfigFile.Parser.constructor` | common/config.c:210-248 | the state and arc table, at its first state |
| `ConfigFile.Parser.MoveTo` | common/config.c:107-118 | moves to the state named without reading past the arcs of the current one, although the loop is bounded by the number of states |
| `ConfigFile.Parser.Q0Action` | common/config.c:125-145 | refines reading lines outside a section; terminates by input left, then kind of state |
| `ConfigFile.Parser.Q1Action` | common/config.c:147-175 | refines reading lines inside a section |
| `ConfigFile.Parser.Q2Action` | common/config.c:177-183 | stores the trimmed value as the server address and goes on reading lines |
| `ConfigFile.Parser.Q3Action` | common/config.c:185-191 | the same for the listening port |
| `ConfigFile.Parser.Q4Action` | common/config.c:193-199 | the same for the database address |
| `ConfigFile.Parser.Q5Action` | common/config.c:201-207 | the same for the logging address |
| `ConfigFile.AcceptedIffGrammatical` | common/config.c:125-175 | the automaton accepts exactly the files that are lists of empty lines and closed sections |
| `ConfigFile.ParamIff` | common/config.c:364-371 | a line is a parameter exactly when it is a letter followed by letters, digits and spaces, an equals sign, and a value without newline, tab and equals sign |
| `ConfigFile.NameAndValue` | common/config.c:382-402 | then its name and value are the two parts |
| `ConfigFile.LinesOfSection` | common/config.c:147-175 | a section is closed by the word end or a parameter of that name, and holds empty lines and the other parameters |
| `ConfigFile.LastAssignmentWins` | common/config.c:177-207 | an accepted file leaves each address at the trimmed value of its last assignment, or unset |
| `ConfigFile.JoinedLinesAreRead` | common/config.c:340-362 | lines written with newlines between them are the lines read |
| `ConfigFile.WrittenLinesAreRead` | common/config.c:340-362 | lines with any indentation, anything after a NUL and either kind of end are read as their texts |
| `ConfigFile.FourKeysAreKept` | common/config.c:257-286 | every file with one section that assigns the four keys any values a line can hold is accepted, however its lines are indented and ended, and leaves exactly the four values without their leading spaces |
| `ConfigFile.Parse` | common/config.c:257-262 | 0 exactly for the files of the grammar, and then the last values |
| `ConfigFile.Setup` | common/config.c:273-286 | a configuration exactly when the file opened and is of the grammar, with the last values |
| `Decimal.CountDigits` | common/lib.c:68-76 | the printed length of every int, sign included |
| `Decimal.PrintedIsInjective` | common/commWithFIFOs.c:77-79 | different ints print differently |
| `Decimal.DigitsRoundTrip` | common/lib.c:68-76 | the digits printed, read back as a number, give it back |
| `Decimal.PrintedWidths` | database/databaseServer.c:158-187 | an int prints on at most 11 characters, a 64-bit integer on at most 20, and the smallest int on exactly 11 |
| `SqlText.TextIsWholeIffStepsRight` | database/databaseServer.c:153-167 | pieces printed at a moving cursor leave the plain concatenation exactly when every step but the last is the length of its piece and the last is no shorter |
| `SqlText.MoneyWidth` | database/databaseServer.c:159-160 | the width computed for a total is right exactly when it is not negative and above minus one; there it is short by one |
| `SqlText.MoneyReadsBack` | database/databaseServer.c:159-160 | the text of a total is its sign, digits, a point and two digits, which read back are its cents |
| `SqlText.OrderQueryFitsIff` | database/databaseServer.c:154-165 | for every total, address and time the order query stays inside its buffer exactly when its computed length is below the size |
| `SqlText.AddressAlwaysFitsIffShort` | database/databaseServer.c:154-165 | an address fits with every int total and time exactly up to 941 characters |
| `SqlText.EntryQueryFits` | database/databaseServer.c:176-187 | the line query always fits its 1024 bytes, for every 64-bit order id |
| `SqlText.OrderQuery` | database/databaseServer.c:153-167 | an order query that fits is the plain concatenation exactly when the total is not one of those and the time has no more digits than its conversion to int |
| `SqlText.LateTimeSpoilsQuery` | database/databaseServer.c:163-164 | a time of 2 to the 32 leaves a query that is not the concatenation |
| `SqlText.SmallDebtSpoilsQuery` | database/databaseServer.c:159-160 | so does a total of minus five cents |
| `SqlText.LateOrderSpoilsQuery` | database/databaseServer.c:180-181 | so does an order id of 2 to the 32 in the query of a line |
| `SqlText.EntryQuery` | database/databaseServer.c:176-187 | the line query is the plain concatenation exactly when the order id prints as wide as its conversion to int |
| `SqlText.EntryTextNamesRow` | database/databaseServer.c:174-187 | the text of a line query determines order id, product and quantity |
| `SqlText.OrderTextNamesOrder` | database/databaseServer.c:153-165 | the text of an order query determines total, address and time, for addresses without a double quote |
| `SqlText.StockQuery` | database/databaseServer.c:129-132 | the stock query fits its buffer exactly and is the plain concatenation |

## Left out

- The SQL engine: parsing, transactions and query failures other than the stock check are not modelled.
- The `total` and `time` columns of an order are in the query text (`SqlText.OrderQuery`) but not in the tables.
- DatabaseServer.Server.GetStock: known ids only, since for an unknown one the C function returns an unset variable.
- What happens after `MESSAGE_CLOSE`: the loops end there, and the order in which the parent server takes its connection down is not modelled.
- Failing system calls appear in `Transport` only; the protocol modules assume calls that succeed, as the properties do not survive an exit that keeps the mutex.
- Transport.EnsureRead: a read returns at least one byte; at end of file the C loop spins on reads of zero bytes.
- Rendezvous.EveryRunConnectsEveryClient: clients that give up after their ten-second wait are not modelled.
- Liveness of the mutex under an arbitrary scheduler: who gets it next is left open, and error exits keep it.
- Process creation, `execve`, shared-memory mapping, signals and the parent server's loop: N forked servers are taken as given.
- Sockets (`common/commWithSockets.c`): the framing is the same as over FIFOs, the rest wraps system calls.
- Logging, terminal prompts and printing: user choices are arbitrary inputs.
- Cart.AddToOrder: the prompt's loop ends when the list of answers does; a user who never gives an amount in range leaves everything as it was.
- Csv.Writer.OutputCsv: texts end at their first NUL, so C strings are required; NULL values, header rows, separators of several characters and text-mode line ends are not modelled.
- Csv.ImportCtx.ReadOneField: interrupts, warnings on standard error and lack of memory are not modelled.
- DotCommand.QuotingRoundTrip: only tokens written by the escaper; `DotCommand.TypedLineIsTokenized` has the lines typed by hand.
- DotCommand.TypedLineIsTokenized: a quote with text right behind it starts a new argument, as in the code; what is typed for one argument that way is not one token.
- ConfigFile.ReadLine: lines are immutable strings after reading, so sharing between a value and the line it points into is not captured; lack of memory is not modelled.
- ConfigFile.Parser.constructor: states are numbered and the table is a value, so the separate heap objects and the generality of `addArcs` for a state that already has arcs are not captured.
- SqlText.OrderQuery: totals that are not whole cents, whose rounding may change the digit count, are outside it, and so are texts that do not fit the buffer, since what overrunning it does is undefined. `SqlText.OrderQueryFitsIff` has the exact condition.
- DatabaseServer.Server.StoreVerifiedOrder: addresses of more than 941 characters are outside it and outside `Ledger.Placeable`, even the ones that would fit with a short total, because the tables hold no total and no time. The time is taken to be an int.
- DatabaseServer.Server.UpdateStock: the text of its queries, which no cursor is moved through and which always fits.
- SqlText.OrderTextNamesOrder: an address with a double quote ends the quoted text of the query early; what the engine makes of that is not modelled.
- SqlText.EntryQuery: an order id is a 64-bit integer, as the engine's row ids are.
- Shop.EveryRequestIsAnswered: clients that stop reading, or leave in the middle of a request, are not modelled.
- Floating-point rounding of prices and totals.
- `database/dbConn.c`, which is not linked into the database server.
