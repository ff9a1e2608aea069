# nanoconfig: a verified model of the worker, its reply format and its tools

nanoconfig lets a nanomsg socket join a topology by name.  `nc_configure` hands the socket to
a worker thread, the worker asks a configuration service where the socket should bind and
connect and which topics announce changes, and it applies each answer to the socket.  This
project models that worker, the MessagePack reader its answers go through, the command
messages that drive it, and the command-line tool nccat with its option engine.

The model follows the code as it is, slips included.  Where an intended property is false of
the code, a lemma gives a concrete input that shows it and another says exactly when the
property does hold.  Code that works in place is modelled in place: the linked lists of
sockets, endpoints and subscriptions are nodes in the heap with tail cells, each method is
proved against a function of the state, and the theorems are about those functions.

## The modules

| module | what it holds |
|---|---|
| `Wrappers` | values that may be missing |
| `MsgPack`, `Wire`, `Skipping` | the readers and the recursive skipper as coded; the MessagePack grammar with a reference decoder; how the two compare |
| `Reply`, `ReplyForm`, `ReplySlips`, `ReplyFaults` | the walk of `nc_parse_and_apply` over a reply, as coded; what it does on well-formed replies; exactly when it stays in step with the others; how replies of the wrong form are turned down |
| `Strays` | at which bytes a read leaves the buffer, and messages that none leaves |
| `IntrusiveList`, `ListFamily` | doubly linked lists with `prev` and `tail` as addresses of cells; several lists at once |
| `Endpoints`, `EndpointList`, `EndpointRuns` | endpoint reconciliation as three phases on a table; the loops that carry it out; which runs of replies stay defined |
| `Subscriptions`, `SubscriptionIndex`, `IndexRuns` | the index of subscriptions as one sequence; the nodes threaded on two lists each; which runs of replies stay defined |
| `Effects`, `ReplyMeaning`, `Apply` | what the steps of a reply do to a socket and the index; which calls to nanomsg a reply means; `nc_parse_and_apply` in the heap |
| `Requests`, `RequestRuns`, `Deadlines`, `Punctuality`, `Registry`, `Holdings` | the request protocol as a state machine, and its whole runs; when each socket asks again; who holds the subscriptions |
| `WholeRuns` | the whole worker over runs of inputs |
| `Records`, `SocketTable`, `Workers` | the structs, the list of sockets, and the worker with its four event sources |
| `Options`, `Refusals` | the option engine, and with which message it ends a program |
| `Nanocat`, `CommandLines`, `Echo` | nccat's table and dispatch, what its command lines mean, and how it prints messages |
| `Nanoconfig` | URL validation and the command messages |

A C operation without a meaning is an outcome of its own: `Wild`, `Lost`, `Strayed` (a cursor
outside the buffer), `Undefined` (a write through a freed node or a pointer never set) and
`Aborted` (a failed assertion).  The theorems say exactly when these happen: for each read in
`Strays`, for the lists in `EndpointRuns` and `IndexRuns`.  A worker in which a read has left
its buffer is no longer running, and what comes after any of these is not modelled.

Taken as given: a little-endian machine with a signed `char` and a 32-bit `int`; the table
behind `nn_symbol`, any finite list; what nanomsg calls return, as a function of the number
of the call (`rcs`, `sends`), an endpoint id that is not positive being a failure; the clock, the id and the time a new socket's uninitialised
fields hold, and the start id, as arguments.

## Where the code departs from what it means to do

- A list's tail is not repaired when its last node goes (src/worker.c:165-170, 734-737, 814-819):
  `Registry.LostSocket`, `Endpoints.DetachedVisit`, `Subscriptions.SweepExactly`.
- The search for a subscription runs to the end of the list and always adds another
  (src/worker.c:755-763): `Subscriptions.SameReplySubscribesTwice`, `Subscriptions.DuplicatesExactly`.
- A topic's `prev` is never set (src/worker.c:777-785), so a topic cannot be given up by its last
  subscriber: `Subscriptions.LastSubscriberUndefined`, `Subscriptions.ReindexExactly`.
- `nc_close` is documented to free what `nc_configure` allocated (doc/nc_close.3.txt:18); the
  subscriptions of a closed socket stay for good (src/worker.c:350-366): `Holdings.CloseLeaves`,
  `Holdings.OwnedExactly`, `Holdings.LeftForGood`.
- An address whose bind or connect fails is listed all the same, and one whose shutdown fails
  is dropped (src/worker.c:698-719, 727-737): `Endpoints.FailedBind`,
  `Endpoints.FailedShutdown`, `Endpoints.ListIsOpenExactly`.
- An address that was bound and is now to be connected to, or the other way round, is kept as
  it was (src/worker.c:643-647, 695-697): `Endpoints.KindsIgnored`.
- The skip loop after an unknown transport tests the wrong variable (src/worker.c:633), and an
  unknown endpoint option sets a stale one (src/worker.c:673-692): `ReplyForm.UnknownTransport`,
  `ReplySlips.EndpointOptionsExactly`, `ReplySlips.AddressesExactly`.
- The level of an endpoint option depends on the length of the protocol's name
  (src/worker.c:683): `ReplySlips.LevelExactly`, `ReplySlips.LevelMissed`.
- The search for the colon of an address does not end with the address (src/worker.c:610), so
  one without a transport name can be taken for one of a transport that comes after it:
  `Strays.ColonBehind`, `Strays.AddressExactly`.
- A read can leave the message altogether, at a length of 2^31 or more (src/utils/msgpack.c:141-146,
  317-319), an address without a colon, or an option name at the end (src/worker.c:610, 683-685):
  `Strays.StrayTopic`, `Strays.StrayAddress`, `Strays.ColonAstray`, `Strays.LevelAstray`,
  `Strays.HeadAstray`, `Strays.SkipAstray`, `Strays.WalkStays`.
- The guard of the subscribe call takes -1, which is no socket, for one and 0 for none
  (src/worker.c:786): `Subscriptions.HeardExactly`.
- An element of an option array that is neither int nor string is looked at again and again
  (src/worker.c:427-441): `ReplyForm.OptionExactly`.
- `array 32`, `map 32` and ext headers are misread when skipping (src/utils/msgpack.c:288-315, 383,
  407): `Skipping.Array32Misread`, `Skipping.Ext8Misread`, `Wire.StraightHeadExactly`.
- An endpoint without a proper id stops the worker when it has to be shut down
  (src/worker.c:715, 727): `Endpoints.Reconciling`.
- The messages about missing options say "at least one of"; the code asks for all of them
  (tools/options.c:704-712, 326): `Nanocat.PullAlone`, `Options.OneMeansAllExactly`.
- `--` is called the end of the options (tools/options.c:680), and the parser goes on behind it:
  `Options.DashesEndNothing`.
- `--msgpack` is documented as "msgpacked string (raw type)" (tools/nanocat.c:223-224); the code
  writes a bin, which the string reader declines: `Echo.FrameIsNoString`.
- `--quoted` promises C-like escaping (tools/nanocat.c:218-219); a byte from 0x80 on comes out with
  eight digits: `Echo.TwoDigitsExactly`.

## Model

| member | source | states |
|---|---|---|
| MsgPack.ParseInt | src/utils/msgpack.c:33-104 | the int reader: for each int family the value as a 32-bit int and the cursor behind it, no success on any other byte or a short buffer |
| MsgPack.ParseString | src/utils/msgpack.c:106-158 | the string reader, including the negative lengths that send its cursor backwards |
| MsgPack.ParseArray | src/utils/msgpack.c:160-200 | the array header reader |
| MsgPack.ParseMapping | src/utils/msgpack.c:202-242 | the mapping header reader |
| MsgPack.SkipValue | src/utils/msgpack.c:244-426 | the recursive skipper ends where the reading of the bytes says; success takes at least a byte per call, and calls and depth are at most the bytes left plus one, whatever counts the headers announce |
| MsgPack.SkipSized | src/utils/msgpack.c:288-320 | str, bin and ext lengths with the wrap-around of the C arithmetic and the ext length read one byte late |
| MsgPack.SkipItems | src/utils/msgpack.c:271-276 | the element loops, within the same work bound |
| MsgPack.SkipPairs | src/utils/msgpack.c:263-270 | the key and value loops, within the same work bound |
| Wire.DecodeIffEncode | src/utils/msgpack.c:244-426 | the reference decoder and the encoder of the MessagePack formats are inverse, so at most one value starts at a place |
| Wire.StraightHeadExactly | src/utils/msgpack.c:284-416 | exactly which headers the skipper misreads, by the bytes it looks at |
| Wire.AdvanceExactly | src/utils/msgpack.c:317-319 | the C arithmetic on a length: when it fails, when it is right, and when it puts the cursor elsewhere |
| Skipping.SkipEncoded | src/utils/msgpack.c:244-426 | in front of an encoded value, whatever follows, the skipper stops exactly behind it if and only if the value's own header is one it reads right |
| Skipping.SkipStraight | src/utils/msgpack.c:244-426 | nested values without a misread header are skipped exactly, in every encoding |
| Skipping.SkipIsDecode | src/utils/msgpack.c:244-426 | where no header is misread a skip succeeds exactly when the grammar has a value here, and stops where it ends |
| Skipping.SkipConsumesOneValue | src/utils/msgpack.c:244-426 | such a success has consumed exactly one value of the grammar |
| Skipping.Array32Misread | src/utils/msgpack.c:380-389 | an array 32 of one element is left after its header |
| Skipping.Ext8Misread | src/utils/msgpack.c:288-298 | an ext 8 of type 0 is left before its data |
| Skipping.MisreadsCanCancel | src/utils/msgpack.c:284-416 | two misreads in one value can make up for each other, so the condition on headers cannot be an if-and-only-if for whole values |
| Skipping.ReadEncoded | src/utils/msgpack.c:33-242 | on every encoding the reader of its family returns what was encoded and the other three decline; only an unsigned 32-bit int from 2^31 up comes back as another number |
| Skipping.OneReaderAtMost | src/worker.c:417-427 | whatever the bytes, at most one of the four readers accepts, so the order of trying them does not matter |
| Skipping.ReadLikeSkip | src/utils/msgpack.c:33-158 | after an int or a string that is read, the cursor is where a skip leaves it |
| Skipping.StringAstray | src/utils/msgpack.c:141-146 | the string reader goes astray on one header only, a str 32 of 2^31 bytes or more |
| Skipping.HeaderThenItems | src/utils/msgpack.c:160-242 | a header that is read and as many skips as it announces come to the same as one skip of the whole, failures and all, if and only if the count is one the skipper reads right or one of the items it looks for fails |
| Reply.FindSymbol | src/worker.c:548-558 | the search for an option name finds the first symbol of exactly that name |
| Reply.FindTransport | src/worker.c:617-630 | the search for a transport finds the first symbol that is NN_ and its name, letter case aside |
| ReplyMeaning.TransportIsFirst | src/worker.c:617-630 | of the symbols that are "NN_" and the transport in upper or lower case it is the first, byte by byte, and there is none if none is found |
| Reply.FindColon | src/worker.c:610 | the search for a colon runs on behind the string: it ends at the first colon or zero in the buffer, and leaves the buffer if there is none |
| Strays.ColonAstray | src/worker.c:610 | the search leaves the buffer if and only if there is no colon and no zero from its start on |
| Strays.ColonOfString | src/worker.c:610 | in front of a string it finds what the string has, and goes on behind it if that is neither colon nor zero |
| Strays.AddressExactly | src/worker.c:591-615 | which addresses are taken and which leave the buffer; they are taken as meant if and only if a colon in them or nothing behind them stops the search |
| Strays.ColonBehind | src/worker.c:610 | [1, {}, [[0, "tc"]]] with "p:" behind it is accepted as an address of transport tcp |
| Strays.LevelAstray | src/worker.c:683-685 | the comparison of an option name leaves the buffer if and only if it is made and all the rest of the buffer agrees with the transport's symbol |
| Strays.HeadAstray | src/utils/msgpack.c:284-320 | the skipper leaves the buffer at a header if and only if it is read with a 32-bit length that exceeds what is left by more than 2^31 |
| Strays.SkipAstray | src/utils/msgpack.c:244-426 | a skip leaves the buffer if and only if the value's header does or one of its items after those before it were passed |
| Strays.StrayTopic | src/worker.c:749-753 | a reply with a topic of negative length |
| Strays.StrayAddress | src/worker.c:606-610 | a reply that ends in an address without a colon |
| Strays.WalkStays | src/worker.c:449-844 | a message that ends in five zeros and has no 32-bit length of 2^31 or more is never left, whatever else it holds |
| Reply.ReadFront | src/worker.c:592-615 | an address tuple up to its options |
| Reply.Drain | src/worker.c:633-639 | the skip loop after an unknown transport goes on until a skip fails |
| ReplyForm.OpeningExactly | src/worker.c:514-538 | in front of an encoded value, a reply is gone into if and only if it is an array of three or more that starts with an int 1 |
| ReplyForm.OptionExactly | src/worker.c:406-447 | an option value is taken in whole, one call per element, if and only if it is an int, a string or an array of these; any other array leaves the cursor inside the value |
| ReplyForm.SocketOptionsRead | src/worker.c:543-580 | the mapping of socket options: the walk makes exactly the calls for the known names in order (at the levels ReplyMeaning.SocketOptionsMean says), drops unknown names, and ends in step with the grammar |
| ReplyForm.EndpointOptionsRead | src/worker.c:654-693 | the mapping of an address's options with their levels |
| ReplySlips.EndpointOptionsExactly | src/worker.c:659-692 | a mapping of any number of names, none a beginning of the transport's symbol, and option values is left at its end if and only if every name is known |
| ReplySlips.AddressesExactly | src/worker.c:591-721 | an address array of any length is left at its end if and only if all option names are known, and every address of unknown transport has no options and is not among the first two |
| ReplySlips.OptionsInStep | src/worker.c:659-692 | after an unknown name the walk goes past the mapping's end, into or behind the tuples that follow |
| ReplySlips.TooManyTurns | src/worker.c:591-721 | a walk with more turns left than tuples never ends where the address array does |
| ReplySlips.LevelExactly | src/worker.c:681-689 | when the level is the one the option's name asks for |
| ReplySlips.LevelMissed | src/worker.c:683 | a name with the transport's prefix that is set at socket level |
| ReplyForm.AddressRead | src/worker.c:591-721 | one tuple: all its options, and then the address |
| ReplyForm.UnknownTransport | src/worker.c:631-641 | a tuple of unknown transport is passed over if and only if it has no options and two addresses came before it |
| ReplyForm.AddressesRead | src/worker.c:591-721 | the address array, in step with the grammar |
| ReplyForm.TopicsRead | src/worker.c:749-753 | the topic array, in step with the grammar |
| ReplyForm.ReplyRead | src/worker.c:449-844 | every well-formed reply in every encoding, whatever bytes come after it: 1 is returned and the steps are those the reply asks for, in order |
| ReplyFaults.ReplyRefused | src/worker.c:449-844 | every reply with something wrong in it, in every encoding: the first thing wrong turns it down -- the opening, the mapping of options, a name that is no string, a value that is unfit, a tuple of another form, a mapping or topic array that is none, a topic that is no string -- and by then exactly what is before it has been done |
| ReplyFaults.SocketOptionsRefused | src/worker.c:543-580 | so in the mapping of socket options |
| ReplyFaults.EndpointOptionsRefused | src/worker.c:654-693 | so in the options of an address |
| ReplyFaults.NoPair | src/worker.c:592-609 | what is not an array of two or three that starts with an int 0 or 1 and a string is no address |
| ReplyFaults.AddressesRefused | src/worker.c:591-721 | so in the address array |
| ReplyFaults.TopicsRefused | src/worker.c:749-753 | so in the topic array |
| ReplyMeaning.SocketOptionsMean | src/worker.c:543-580 | each pair of the mapping: an option whose name is the socket's protocol, an underscore and more is set at the protocol's level and any other at level 0, under the id of the first symbol of its name, once for a value and once for each element of an array |
| ReplyMeaning.EndpointOptionsMean | src/worker.c:659-692 | each pair of an address's options: at the level of the transport if the name is the transport's symbol, an underscore and more, and longer than the protocol's name, and at level 0 otherwise |
| ReplyMeaning.ReplySets | src/worker.c:543-693 | end to end: after a well-formed reply the calls that set options are those before and then those that its pairs mean, address by address, and no others |
| ReplyMeaning.ReplyOpens | src/worker.c:591-721 | end to end: every address of known transport that was not listed has a call of its own, a bind if its first tuple starts with 0 and a connect if it starts with 1 |
| IntrusiveList.List.Append | src/worker.c:157-163 | an append through the tail cell; through a tail that names a node no longer listed, the list does not change |
| IntrusiveList.List.Remove | src/worker.c:165-170 | a removal through the node's own fields; the tail still names the end exactly if the node was not the last |
| ListFamily.RemoveFromBoth | src/worker.c:814-819 | a removal from two lists leaves all other lists as they were |
| Endpoints.Reconciling | src/worker.c:587-738 | reconciliation is set difference: kept endpoints keep their ids, each new address is opened once, each dropped one shut down once by its own id, and no other call is made; it is aborted exactly if a dropped one has no proper id, and the tail stays right exactly if the old last one stays or one is added |
| Endpoints.ListedAreNamed | src/worker.c:587-738 | after a reply the listed addresses are exactly the reply's, without duplicates |
| Endpoints.SameReplyAgain | src/worker.c:587-738 | a reply that names exactly what is listed makes no call and changes no id |
| Endpoints.DetachedVisit | src/worker.c:716-719 | from a tail that names a freed endpoint, the first address to add has no defined outcome |
| Endpoints.SweptExactly | src/worker.c:723-738 | the sweep keeps the visited, shuts down the rest in order, and runs to its end exactly if all of those have proper ids |
| Endpoints.UseTracks | src/worker.c:695-720 | naming an address keeps in step: the listed endpoints with a proper id are what nanomsg has open, each under its own id, but for those whose shutdown failed |
| Endpoints.SettleTracks | src/worker.c:723-738 | so does the sweep, aborted or not |
| Endpoints.ListIsOpenExactly | src/worker.c:698-737 | the whole list is what nanomsg has open if and only if every listed endpoint has a proper id and no shutdown has failed |
| Endpoints.FailedBind | src/worker.c:698-719 | a bind that fails: the endpoint is listed, nothing is open, and the next reply without it ends the worker |
| Endpoints.FailedShutdown | src/worker.c:729-737 | a shutdown that fails: the endpoint is open and no longer listed |
| Endpoints.KindsIgnored | src/worker.c:643-647 | after two replies that differ in kinds only, the second has made no call and changed no id |
| EndpointRuns.DefinedExactly | src/worker.c:582-738 | over every run of replies to a socket, turned down ones among them, the endpoint list stays defined and stops nothing if and only if no reply gives up an endpoint without a proper id and none names a new address after the last one listed was given up without a new one |
| EndpointRuns.VisitExactly | src/worker.c:582-738 | one reply: whether it stays defined, and whether the tail comes loose |
| Endpoints.NewsExactly | src/worker.c:643-647 | the addresses opened are those named and not listed, each once |
| Endpoints.OpensAsNamed | src/worker.c:704-711 | the calls a reply makes: for each address it names that is not listed, a bind or a connect as its kind says where it is first named, and no other but shutdowns |
| EndpointList.SocketEndpoints.UnmarkAll | src/worker.c:587-589 | the loop over the nodes is the unmarking of the table |
| EndpointList.SocketEndpoints.FindNode | src/worker.c:643-647 | the search stops at the first endpoint with the address |
| EndpointList.SocketEndpoints.UseAddress | src/worker.c:695-720 | visiting or adding a node is the naming of the address, well linked afterwards |
| EndpointList.SocketEndpoints.SettleAll | src/worker.c:723-738 | the sweep of the nodes is the sweep of the table, and stops where the assertion fails |
| Subscriptions.ReindexExactly | src/worker.c:740-839 | applying topics: defined if and only if no append goes through a loose tail and every topic given up is held by another socket; then what is left and added, and which tails come loose |
| Subscriptions.ReindexConsistent | src/worker.c:740-839 | afterwards a topic is listed exactly if it has a subscription, none twice, and updates have been asked for of exactly these, once each |
| Subscriptions.UseConsistent | src/worker.c:755-805 | that holds as well after any part of a topic array |
| Subscriptions.HeardExactly | src/worker.c:786-794 | the updates socket is subscribed to exactly the listed topics if and only if there are none, or it is not number 0 and every call went well |
| Subscriptions.SweepExactly | src/worker.c:808-839 | the sweep in closed form, with the tails it loosens |
| Subscriptions.DuplicatesExactly | src/worker.c:755-763 | how often a socket is subscribed to a topic after a reply: once exactly if it was not before and is named once |
| Subscriptions.SameReplySubscribesTwice | src/worker.c:755-763 | the same reply twice leaves two subscriptions |
| Subscriptions.LastSubscriberUndefined | src/worker.c:822-825 | giving up a topic nobody else holds has no defined outcome |
| IndexRuns.DefinedExactly | src/worker.c:740-839 | over every run of replies from any sockets the index stays defined if and only if no reply gives up a topic nobody else holds, and none names a topic after its socket gave up all it held or after the topic's last subscription was given up |
| IndexRuns.RenameExactly | src/worker.c:740-839 | one reply: whether it stays defined, and which tails come loose |
| IndexRuns.RunDefined | src/worker.c:256-885 | so for every run of the worker |
| SubscriptionIndex.Index.UnmarkOwn | src/worker.c:740-742 | the loop over the socket's nodes, with both lists of every node in order |
| SubscriptionIndex.Index.TouchOwn | src/worker.c:755-761 | the search marks all the socket's subscriptions to the topic |
| SubscriptionIndex.Index.FindTopic | src/worker.c:769-775 | the search finds the topic exactly if it is listed |
| SubscriptionIndex.Index.AddTopic | src/worker.c:776-795 | a new topic with an empty list, whose updates are asked for |
| SubscriptionIndex.Index.UseTopic | src/worker.c:755-805 | a topic of a reply: the new subscription is on exactly its socket's list and its topic's list, unless a tail names a freed node |
| SubscriptionIndex.Index.RemoveSub | src/worker.c:813-825 | a subscription leaves both its lists, and the tail cells say which of them lost its last node |
| SubscriptionIndex.Index.SettleOwn | src/worker.c:808-839 | the sweep of the socket's list is the sweep of the index |
| SubscriptionIndex.Index.Dispatch | src/worker.c:906-916 | after an update the starting sockets are those that were and those with a subscription whose topic the message begins with |
| SubscriptionIndex.ConcernedExactly | src/worker.c:906-916 | an update is for the sockets with a subscription whose whole topic comes first in the message, whatever follows it |
| Effects.Applied | src/worker.c:449-844 | every reply that is accepted, well-formed or not: the endpoints are reconciled with the addresses it names and the index with its topics |
| Effects.TurnedDown | src/worker.c:449-844 | every reply that is turned down, by how far it was read: what becomes of the endpoints, of the index, and of the options |
| Effects.LeftBuffer | src/worker.c:449-844 | every reply in which a read leaves the buffer: what has been done by that time |
| Effects.NothingShutDownEarly | src/worker.c:582-738 | a reply that is turned down before the end of its address array shuts nothing down and loses no endpoint |
| Effects.StepsKeepIndex | src/worker.c:449-844 | whatever the reply and wherever it stops, the index stays consistent unless something undefined happens to it |
| Effects.StepsKeepTracks | src/worker.c:449-844 | whatever the reply and wherever it stops, the listed endpoints with a proper id stay what nanomsg has open, as long as it gives no two opens of the socket one id |
| Effects.ReplyDoes | src/worker.c:449-844 | every well-formed reply end to end: options set, endpoints reconciled, subscriptions reindexed |
| Effects.WalkHasShape | src/worker.c:449-844 | every walk is options, addresses, topics in that order with the sweeps between them, and 1 is returned exactly if it got through |
| Effects.DoAddresses | src/worker.c:591-721 | options between addresses do not bear on the endpoints, nor addresses on the index |
| Apply.SetOptionFrom | src/worker.c:406-447 | the calls made for an option value and where the cursor ends |
| Apply.SetSocketOptions | src/worker.c:543-580 | the loop over socket options is its part of the walk |
| Apply.SetEndpointOptions | src/worker.c:654-693 | the loop over an address's options is its part of the walk |
| Apply.UseAddresses | src/worker.c:591-721 | the loop over addresses, on the nodes, is its part of the walk carried out |
| Apply.ReconcileEndpoints | src/worker.c:582-738 | address array and sweep |
| Apply.UseTopics | src/worker.c:749-806 | the loop over topics, on the nodes, is its part of the walk carried out |
| Apply.ReindexTopics | src/worker.c:740-839 | topics and sweep |
| Apply.ParseAndApply | src/worker.c:449-844 | for all bytes: what happens to the socket, its endpoints and the index in memory is the walk of the reply carried out, and both structures keep their invariants |
| RequestRuns.PlayGood | src/worker.c:256-366 | in every state of every run request numbers and ids agree, and sockets without a request follow those with one |
| RequestRuns.TakenIsFresh | src/worker.c:869-882 | inside the id window, a reply to a request is taken by a socket only if it is the socket's newest and nothing has happened to the socket since it was sent |
| RequestRuns.OpenIsTaken | src/worker.c:869-882 | inside the id window, a reply to an open request is always taken by the socket that asked, whatever ids unasked sockets hold |
| RequestRuns.AppliedOnce | src/worker.c:869-882 | each request is applied at most once over the whole run |
| RequestRuns.SameIdSameIssue | src/worker.c:936-939 | inside the window an id names one request |
| Deadlines.TimersWakeInTime | src/worker.c:920-968 | the timeout is at most a minute and no later than any deadline, and a pass that was not cut short leaves no socket starting |
| Deadlines.InterruptedPassStops | src/worker.c:946-949 | an interrupted send, wherever in the list, leaves the sockets behind it as they were, its own starting and those before it waiting |
| Deadlines.CompleteExactly | src/worker.c:930-962 | a pass is cut short if and only if one of its sends is interrupted |
| Deadlines.NoSocketStarves | src/worker.c:981-1010 | over every run, interrupted or not, no listed socket goes longer without an attempt than the request wait and the refresh interval together, but for the time the worker itself takes, and that once more for each pass of the longest streak of interrupted ones and of the one it is in |
| Deadlines.NoNeedlessWake | src/worker.c:927-967 | the worker is not woken early: it sleeps a whole minute, or until the moment some socket is due, or not at all because one is due already or the pass was cut short |
| Punctuality.PassFor | src/worker.c:930-962 | one pass, for one socket: nothing if it is not due, a try if it is and the pass is not cut short, and a state that says how its request was sent |
| Punctuality.TriedWhenDue | src/worker.c:930-962 | over every run: no pass tries a socket before it is due, and each that is not cut short does from then on, as long as nothing concerns the socket |
| Punctuality.AfterReply | src/worker.c:874-880 | over every run: after a reply that was accepted, the socket's next request goes out 300,000 ms later and after one that was turned down 100 ms later, not before, and in the first pass from then on that is not cut short |
| Punctuality.AfterBusy | src/worker.c:950-954 | so 100 ms after the request socket was busy |
| Punctuality.AfterSending | src/worker.c:957-961 | so 1000 ms after a request that has had no reply |
| Punctuality.AfterStart | src/worker.c:264-330 | so at once after a configure command or an update, whatever the socket was waiting for |
| Registry.ListIsRegistry | src/worker.c:256-366 | over every command sequence the list is the map from socket number to first URL, if and only if no socket is configured anew after the last listed one was closed |
| Registry.LostSocket | src/worker.c:157-170 | configure, close, configure: the second socket is never found |
| Registry.EventRegisters | src/worker.c:256-366 | one event keeps list and map in step unless it adds through a loose tail |
| Holdings.WalkNames | src/worker.c:740-839 | the walk of every reply that is accepted or turned down leaves the topics alone, names some of them, or goes through |
| Holdings.RunConsistent | src/worker.c:740-839 | over every run the index is in order as long as nothing in it is undefined |
| Holdings.HoldersExactly | src/worker.c:740-839 | over every run a socket has a subscription exactly if the last reply that got through its topics named some, or a later one that was turned down there did |
| Holdings.CloseExactly | src/worker.c:350-366 | after a close every subscription belongs to a listed socket if and only if those of all others did before and the closed one had none |
| Holdings.OwnedExactly | src/worker.c:256-885 | over every run that is always so if and only if no socket is closed while it has a subscription |
| Holdings.LeftForGood | src/worker.c:350-366 | the subscriptions of a socket no longer listed never change again |
| Holdings.CloseLeaves | src/worker.c:350-366 | configure, ask, a reply with a topic, close: the subscription is left and no socket is listed |
| WholeRuns.RunInOrder | src/worker.c:256-885 | in every state the worker can reach the index is in order and every endpoint list in step with what nanomsg has open, as long as nothing undefined has happened to it and no open gave an id twice |
| WholeRuns.RunTabled | src/worker.c:256-885 | a reply that is taken always finds the endpoints of its socket |
| SocketTable.Table.FindSocket | src/worker.c:172-182 | the first listed socket of that number |
| SocketTable.Table.Enlist | src/worker.c:157-163 | a socket added at the end, or to a chain nobody walks |
| SocketTable.Table.Delist | src/worker.c:165-170 | a socket taken off, and whether the tail still names the end |
| SocketTable.Table.FindRequest | src/worker.c:869-870 | the first listed socket whose request has that id |
| SocketTable.Table.ProcessTimers | src/worker.c:920-968 | the timer pass over the nodes is that of the protocol, with its timeout |
| SocketTable.Table.TurnSocket | src/worker.c:930-962 | one socket's turn over the node: id, state, retry time and the next wake-up are those of the protocol (whose times Punctuality.AfterBusy and Punctuality.AfterSending state in numbers) |
| Workers.ReplyAnswersRequest | src/worker.c:302-318 | an answer under the id bytes of a request is looked up under that request's id |
| Workers.RequestsDiffer | src/worker.c:936-941 | requests with the same id bytes have the same id |
| Workers.RequestExactly | src/worker.c:302-318 | a request is four zeros, the id bytes with their high bit set, and three words that can be read back: RESOLVE, the URL and the protocol |
| Workers.NotForUs | src/worker.c:863-867 | a message is no reply for this endpoint if and only if it has fewer than five bytes or its high bit is not set |
| Workers.Worker.Configure | src/worker.c:256-330 | one configure command: which socket is new, that it has the command's URL, protocol and protocol number and starts without endpoints and options and that those of all others stay, and that order is kept |
| Workers.Worker.Close | src/worker.c:350-366 | one close command: the socket leaves the list, and its subscriptions and all endpoints stay |
| Workers.Worker.ProcessTimers | src/worker.c:920-968 | the timer pass leaves the index, all endpoints and all options alone |
| Workers.Worker.ProcessUpdate | src/worker.c:887-918 | one update message restarts exactly the sockets it concerns, and leaves the index, endpoints and options alone |
| Workers.Worker.ProcessResponse | src/worker.c:846-885 | one reply message: who takes it and that nobody takes one without the high bit, that the endpoints and options of all other sockets stay as they were, that endpoints and index stay in order, when that socket asks again, and that the worker is lost if and only if a read left the buffer |
| Workers.Worker.Answer | src/worker.c:874-880 | applying a reply keeps the endpoints in step with nanomsg and the index in order, leaves all other sockets' endpoints and options and the table as they were, and leaves the worker running if and only if no read left the buffer |
| Options.ScanLong | tools/options.c:585-612 | the one-pass longest-prefix scan finds the option of that name, else the only one that begins so, else says several or none |
| Options.DashesEndNothing | tools/options.c:675-692 | `--` or `-` in front of any arguments changes nothing |
| Options.ResolveExactly | tools/options.c:585-637 | an abbreviation is taken for an option exactly if that one and no other begins with it |
| Options.ProcessedExactly | tools/options.c:352-369 | all uses go through exactly if each fits and none is barred by an earlier one; the mask is then what they set |
| Options.CheckExactly | tools/options.c:694-716 | the requirements hold exactly if all bits that the uses and the program need are set |
| Options.AcceptedExactly | tools/options.c:352-716 | acceptance as a condition on the uses alone |
| Options.RunAccepts | tools/options.c:718-750 | a command line is accepted if and only if it can be read to its end and its uses are |
| Options.OneMeansAllExactly | tools/options.c:704-712 | for all uses of a table, having one of some bits is having all of them if and only if every option that sets one of them sets all |
| Options.MessagesRight | tools/options.c:694-716 | where all that is asked for comes together, a command line is accepted exactly as the messages have it |
| Options.OrderIrrelevant | tools/options.c:365-369 | where conflicts are mutual, acceptance depends on which options are used and how often, not on their order |
| Options.OrderMatters | tools/options.c:365-369 | where one rules out another and not the other way round, one order is accepted and the other refused |
| Options.AtMostOne | tools/options.c:365-369 | a bit that all its setters conflict with is set at most once |
| Options.ParseWritten | tools/options.c:575-692 | options written in any mix of --name=v, --name v, -nv, -n v and clustered flags are read back as those options |
| Options.RunWritten | tools/options.c:718-750 | a command line written that way comes to what was meant, after what the program's name stands for |
| Refusals.SlipAnswered | tools/options.c:575-692 | each way to get an option wrong -- a value for a flag, no value where one is wanted, an unknown or ambiguous name, an unknown letter, a stray word -- is answered with its own message, whatever was written properly before it and whatever comes after |
| Refusals.SlipEnds | tools/options.c:718-750 | the program ends with that message unless an option before it has ended it |
| Refusals.FirstObjection | tools/options.c:352-522 | the first use that is objected to decides how the program ends: an argument missing for the program's name, a conflict, the help, a value that is not in the list or that libc does not take; and what none is objected to goes through |
| Refusals.CheckStops | tools/options.c:694-716 | the message about what is missing is about the first such option of the table, and about the program's own needs only if there is none |
| Refusals.BaseExactly | tools/options.c:503-509 | the program's name is what is behind the last slash |
| Refusals.ByNameExactly | tools/options.c:511-521 | it stands for exactly the options with that name, once each and in the order of the table |
| Options.Parser.GetArg | tools/options.c:565-573 | the next argument, if there is one |
| Options.Parser.ProcessOption | tools/options.c:352-496 | conflict, mask and value of one use |
| Options.Parser.ParseLong | tools/options.c:575-638 | one long option with its argument |
| Options.Parser.ParseShort | tools/options.c:640-672 | one letter of a cluster with its argument |
| Options.Parser.ParseArg | tools/options.c:675-692 | one argument; -- and - are stepped over |
| Options.Parser.ParseName | tools/options.c:498-522 | the options the program's name stands for, and the assertion that none of them takes an argument |
| Options.Parser.CheckRequires | tools/options.c:694-716 | the first option in use that lacks something, else what the program requires |
| Options.Parser.ParseOptions | tools/options.c:718-750 | the parser ends with what the command line comes to, or with its first error |
| Nanocat.ConflictsAreMutual | tools/nanocat.c:128-247 | conflicts among nccat's options are mutual |
| Nanocat.AnyOrder | tools/nanocat.c:128-255 | the order of nccat's options does not matter for being accepted |
| Nanocat.AcceptedSensibly | tools/nanocat.c:128-255 | which uses nccat accepts, without its masks: one socket type, one topology, data at most once; an echo format only where the socket receives, subscriptions only for SUB, an interval or data only where it sends; data for the types that speak first |
| Nanocat.AcceptedLine | tools/nanocat.c:250-255 | so for whole command lines, as an if-and-only-if |
| Nanocat.AcceptedNanocat | tools/nanocat.c:546-579 | every accepted command line has exactly one socket type and one topology and data at most once; the loop entered prints what comes in if and only if the socket receives, sends if and only if there is data, and answers if and only if there is data and the type is REP or RESPONDENT |
| Nanocat.OptionMessagesRight | tools/nanocat.c:128-255 | what nccat's options need is what the messages about them say; only what nccat itself requires is more than its message says |
| Nanocat.PullAlone | tools/options.c:709-714 | nccat --pull has one of the required bits and is refused with the message that at least one is required |
| CommandLines.TypeRow | tools/nanocat.c:70-93 | each socket type's option sets the constant of its name, and the program's name for it is nn_ and that name |
| CommandLines.CalledByType | tools/options.c:498-522 | calling the program nn_x is calling nccat with --x first, whatever arguments follow |
| CommandLines.RowDescribed | tools/nanocat.c:128-247 | each other option stores where its name says, and its letter is that of its name |
| CommandLines.EchoesAsAsked | tools/nanocat.c:98-112 | messages are printed in the format asked for last, by --format or by its own option, and not at all if none was; a value of --format that is accepted is in its list |
| Echo.PrintMessage | tools/nanocat.c:313-376 | what is written for a message in each format |
| Echo.EscapeExactly | tools/nanocat.c:333-351 | each byte of a quoted message: newline, return, backslash and quote as in C, other printable ones as they are, the rest by two hexadecimal digits with six f's before them from 0x80 on |
| Echo.AsciiExactly | tools/nanocat.c:321-330 | each byte of an ASCII line is that of the message if it is printable and a dot if not, and a newline ends it; the line shows the message if and only if all of it is printable |
| Echo.UnquotedOutput | tools/nanocat.c:315-320 | silent output is empty, and raw output the messages and nothing else, so that any two look like one |
| Echo.DelimitedOutput | tools/nanocat.c:331-373 | quoted and framed output, message after message, which is what can be read back |
| Echo.FrameLead | tools/nanocat.c:355-373 | the bytes before a framed message, for each of the three lengths |
| Echo.QuotedRoundTrip | tools/nanocat.c:331-354 | the quoted output of any messages in a row reads back as those messages |
| Echo.OneLineEach | tools/nanocat.c:331-354 | it has as many lines as messages and ends a line |
| Echo.TwoDigitsExactly | tools/nanocat.c:345-350 | a reader of two-digit escapes gets a message right if and only if it has no byte from 0x80 on |
| Echo.FramesCut | tools/nanocat.c:355-373 | a stream of framed messages is cut by the skipper into just those messages |
| Echo.FrameIsNoString | tools/nanocat.c:355-373 | a frame is not a string to the string reader |
| Nanoconfig.ValidateUrl | src/nanoconfig.c:129-140 | a URL is taken exactly if it is short enough, has the scheme and only visible characters |
| Nanoconfig.ValidUrlExactly | src/nanoconfig.c:129-140 | the same in plain numbers: at most 512 characters from 0x21 to 0x7E that begin with nanoconfig://, so that a URL is one word |
| Nanoconfig.CommandRoundTrip | src/worker.c:369-404 | every command that fits the worker's buffer arrives as it was given |
| Nanoconfig.ValidUrlFits | src/worker.c:371 | every valid URL fits the buffer with 41 bytes to spare |
| Nanoconfig.Library.Configure | src/nanoconfig.c:142-173 | what configure returns and sends; a URL that is not taken starts nothing |
| Nanoconfig.Library.Close | src/nanoconfig.c:175-190 | before anything was configured the socket is closed at once, later the worker is told |
| Nanoconfig.Library.Term | src/nanoconfig.c:192-207 | the shutdown command |

## Left out

- Skipping.SkipEncoded: for a value with a misread header further in, only that the skipper may go wrong is shown (Skipping.MisreadsCanCancel), because two misreads can make up for each other.
- RequestRuns.TakenIsFresh: only inside the id window, because ids wrap at 2^31 and an older reply in flight may carry a newer request's id.
- Subscriptions.Reindex: nothing is said after an undefined outcome, because the C program has no meaning there.
- SubscriptionIndex.Index.AddTopic: it records that updates are asked for; the guard on the socket's number and the result of the call come in only in Subscriptions.HeardExactly, because nothing else in the worker depends on them.
- ReplySlips.EndpointOptionsExactly: for mappings whose names are strings and no beginnings of the transport's symbol, and whose values are option values that can be skipped; other mappings are not of the documented form of a reply.
- Endpoints.Tracks: nanomsg's own endpoints are known by the results of its calls only, so one that it closes by itself is not seen.
- Reply.SymbolValue: an option name with a zero byte in it, for which the C comparison may look behind a symbol's end.
- Addresses with a zero byte in them, which nanomsg would see cut short.
- Reply.ReadOpening: what is printed for an error reply; its text is not used, and is not set at all where it is printed.
- Options.Fits: which numbers, floats and file contents libc accepts is an argument; an empty file is taken to be refused.
- Options.Sem: what an option stores at its offset is the record of its use; only nccat's socket type, data and echo format are read from it.
- Nanocat.LoopOf: the send and receive loops themselves, and nanomsg's numbers for the socket types, of which only that they differ matters.
- Workers.Worker.Configure: the protocol number and its symbol are arguments; the C code asks nanomsg for the one and asserts that it finds the other.
- Nanoconfig.Library: `errno`, the environment variables and the abort when they are missing; what happens to commands sent after the shutdown command.
- Deadlines.NoSocketStarves: times are unbounded, the C fields have 64 bits; the timeout is passed on as an int, which a minute fits.
- Requests.Timers: a send error other than busy, interrupted or shutting down, and a reply or update socket error other than "nothing there", stop the program by an assertion.
- Workers.RequestBytes: the timers count a request as sent with its id; that its bytes carry the id is what the source writes at src/worker.c:936-941.
- Worker threads, poll, memory exhaustion, src/utils other than the reader, help and usage texts, tools/nanodev.c and the Python examples.
