# The tunnel's core, modelled and proved

The tunnel takes packets from a TUN device, ends their TCP and UDP flows in lwIP, and carries them
to a SOCKS5 server. These Dafny files model the parts of it where state, protocols and arithmetic
meet, and prove what those parts are for.

- **Ordered maps.** `RedBlackShape`, `RedBlackMemory` and `RedBlackTree` are the intrusive
  red-black tree; `OrderedSearch` and `Authenticator` use it as a map of users.
- **Mapped DNS.** `MappedDns` keeps a tree, a list (`LinkedList`) and an array of the same nodes;
  `LruCache` is the simple cache they amount to. `DnsHandler` answers queries out of it,
  `DnsMessage` and `DnsAnswers` say what the answers mean.
- **SOCKS5.** `SocksAddress`, `SocksEndpoints`, `SocksNetwork` and `SocksHandshake` compose the
  repository's client with its server over two byte channels, `SocksPeers` puts each against any
  peer; `UdpFraming` carries messages.
- **Start and stop.** `TunnelSync` is the flag word shared by stoppers and the lifecycle thread,
  `TunnelService` the service calls around it, as atomic steps in any interleaving.
- **Bytes in flight.** `RingBuffer` is the zero-copy pipe, `TcpSplice` the two directions of a
  session over it.
- **YAML.** `YamlGraph`, `YamlAnchors`, `YamlDumper`, `YamlLoader`, `YamlReload`, `YamlRoundTrip`
  and `YamlDocument` are documents as graphs, out to events and back, `YamlLoaded` what any events
  load as. `YamlParser`, `YamlNesting`, `YamlGrammar`, `YamlAccepted`, `YamlParsed` and `YamlTags`
  are the parser from tokens to events, `YamlEmitter`, `YamlLayout` and `YamlDumped` the emitter's
  machine, `Utf` and `YamlReader` the reader from bytes to characters.
- **IPv4 replies.** `IpReply` turns a DNS query packet around.

Code that updates fields is a class with those fields, code that works in place is a method over an
array. Each such method is tied to a function of the old state, and the theorems are about that
function. Nodes that point at each other live in a map from addresses to cells: two names for one
cell are one address, so aliasing is there as in C. What comes from outside is a parameter that may
have any value: results of system calls and allocations, the order of events, the pieces a stream
is cut into. Ghost parameters (paths, subtrees, walks) carry the proofs and nothing else.

## Model

| member | source | states |
|---|---|---|
| RedBlackTree.RbTree.InsertColor | app/src/main/jni/src/core/src/hev-rbtree.c:195-333 | From a red leaf linked into any empty place, the loop restores every invariant (black root, no red node below a red one, equal black heights, child and parent links that agree), and the nodes in order are those before the place, the new one, those after it |
| RedBlackTree.RbTree.Erase | app/src/main/jni/src/core/src/hev-rbtree.c:629-635 | Any node of any valid tree can be taken out: every invariant holds again, and the nodes in order are the old ones without just that node |
| RedBlackTree.RbTree.EraseColor | app/src/main/jni/src/core/src/hev-rbtree.c:451-626 | With one black node missing below some hole, the loop ends by climbing, makes the tree whole and keeps the order of the nodes |
| RedBlackTree.RbTree.EraseStepLeft | app/src/main/jni/src/core/src/hev-rbtree.c:463-572 | One round on the left side: the tree is whole, or the short subtree is now the parent's, one level higher, with the order unchanged |
| RedBlackTree.RbTree.EraseStepRight | app/src/main/jni/src/core/src/hev-rbtree.c:573-624 | The same on the right side |
| RedBlackTree.RbTree.UnlinkOnly | app/src/main/jni/src/core/src/hev-rbtree.c:359-382 | A node with at most one child is unlinked, order kept, and the place that lacks a black node is named exactly when there is one |
| RedBlackTree.RbTree.UnlinkSuccessor | app/src/main/jni/src/core/src/hev-rbtree.c:383-441 | A node with two children is replaced by its successor, near or far, order kept, and the place that lacks a black node is named exactly when there is one |
| RedBlackTree.RbTree.InsertRotateRight | app/src/main/jni/src/core/src/hev-rbtree.c:250-293 | Cases 2 and 3 of insertion, as pointer changes, give the rotated subtree in the same surroundings with all links agreeing |
| RedBlackTree.RbTree.EraseRotateLeft | app/src/main/jni/src/core/src/hev-rbtree.c:515-572 | Cases 3 and 4 of erasing, as pointer changes, give the rotated subtree in the same surroundings with all links agreeing |
| RedBlackTree.RbTree.Leftmost | app/src/main/jni/src/core/src/hev-rbtree.c:169-179 | The first node in order, or none for an empty tree |
| RedBlackShape.PlugRedBlack | app/src/main/jni/src/core/src/hev-rbtree.c:195-635 | What a valid tree asks of a subtree and of the path above it, both directions: the fact each case of the fix-up loops rests on |
| RedBlackShape.HeightIsLogarithmic | app/src/main/jni/src/core/src/hev-rbtree.c:195-333 | A valid tree of n nodes is at most 2*log2(n+1) high |
| OrderedSearch.Search | app/src/main/jni/src/core/src/hev-socks5-authenticator.c:42-64 | The search loop finds the node of a name, or the one empty place where a node of that name keeps the order, over any total order |
| OrderedSearch.NotFound | app/src/main/jni/src/core/src/hev-socks5-authenticator.c:42-69 | At the place the loop stops at, the name is nowhere in the tree, and a node put there leaves the order strict |
| ByteOrder.LengthOrderIsTotal | app/src/main/jni/src/core/src/hev-socks5-authenticator.c:50-55 | Length first, bytes second, is a total order that tells different names apart |
| ByteOrder.StringOrderIsTotal | app/src/main/jni/src/hev-mapped-dns.c:113 | strcmp is a total order that tells different strings apart |
| Authenticator.Table.Add | app/src/main/jni/src/core/src/hev-socks5-authenticator.c:40-70 | The table is a finite map from names to users: a new name is entered, a second user of the same name is refused and nothing changes |
| Authenticator.Table.Get | app/src/main/jni/src/core/src/hev-socks5-authenticator.c:105-131 | The user the map has for the name, or none |
| Authenticator.Table.Del | app/src/main/jni/src/core/src/hev-socks5-authenticator.c:73-102 | The map loses just that name, and -1 says it was not there |
| Authenticator.Table.Clear | app/src/main/jni/src/core/src/hev-socks5-authenticator.c:134-145 | The map is empty, and the loop ends |
| LinkedList.List.AddTail | app/src/main/jni/src/misc/hev-list.c:15-25 | The sequence of nodes gets one more at its end, forward and backward links agreeing |
| LinkedList.List.Del | app/src/main/jni/src/misc/hev-list.c:28-39 | The sequence loses just that node, first, last, middle or only one, links agreeing |
| MappedDns.Mapper.New | app/src/main/jni/src/hev-mapped-dns.c:45-63 | Made if and only if there are no more indices than host addresses, and empty; the three views agree from then on, unless there are no indices at all |
| MappedDns.Mapper.Find | app/src/main/jni/src/hev-mapped-dns.c:103-154 | Tree, list and record array keep holding the same nodes (names distinct, records[n.idx] being n, no more than max), and state and result are those of a linear-scan cache that evicts the least recently touched entry |
| MappedDns.Mapper.Lookup | app/src/main/jni/src/hev-mapped-dns.c:262-279 | The same for a lookup: the name of the entry with that index, made the newest, or none |
| MappedDns.Mapper.TakeOldest | app/src/main/jni/src/hev-mapped-dns.c:135-148 | The oldest node, and no other, is taken out of the list and the tree, both staying in order, and its index is given back |
| MappedDns.CoherentSound | app/src/main/jni/src/hev-mapped-dns.c:102-154 | Agreement of the three views gives a sound cache: distinct names, indices 0 up to the number of entries |
| LruCache.StepSound | app/src/main/jni/src/hev-mapped-dns.c:102-154 | The simple cache stays sound in any operation, never more than max entries |
| LruCache.Retained | app/src/main/jni/src/hev-mapped-dns.c:121-148 | An entry keeps its index through any run of finds and lookups while fewer than max other names are newer or touched |
| LruCache.RetainedExactly | app/src/main/jni/src/hev-mapped-dns.c:121-148 | For an entry that is not touched again this is exact: it is still there if and only if fewer than max names are newer or touched |
| LruCache.AnsweredExactly | app/src/main/jni/src/hev-mapped-dns.c:121-148 | In any run: a name that got an index and is not touched again keeps it if fewer than max names are touched after it, and is gone otherwise |
| LruCache.LookupsForgetNothing | app/src/main/jni/src/hev-mapped-dns.c:275-278 | Any run of lookups keeps just the same entries |
| DnsHandler.Handle | app/src/main/jni/src/hev-mapped-dns.c:179-259 | For any query bytes and any room: stays inside both buffers, ends, and leaves the cache and the reply (or -1) that the reading of the query by sections 4.1.1 to 4.1.4 of RFC 1035 calls for, although it overwrites the names while it reads them |
| DnsHandler.ScanName | app/src/main/jni/src/hev-mapped-dns.c:211-222 | The in-place scan ends at the end of the name or refuses it, and leaves the labels joined by dots, nothing behind them changed |
| DnsHandler.NameRead | app/src/main/jni/src/hev-mapped-dns.c:211-231 | What the C string behind the first length byte then reads is the question's name, cut at a zero byte inside a label |
| DnsMessage.WholeName | app/src/main/jni/src/hev-mapped-dns.c:211-231 | A question is asked for by its whole name if and only if no label of it has a zero byte |
| DnsMessage.LabelsComeBack | app/src/main/jni/src/hev-mapped-dns.c:211-222 | The name asked for, split at its dots, gives the question's labels back, if none has a dot itself |
| DnsAnswers.NameCut | app/src/main/jni/src/hev-mapped-dns.c:179-259 | A query for the label a, zero, b: it is answered, but the cache has the name a |
| DnsHandler.AskAll | app/src/main/jni/src/hev-mapped-dns.c:207-239 | Every question is walked over, just the A/IN ones are asked of the cache, in order, and offset and address of each answer are noted |
| DnsHandler.WriteRecords | app/src/main/jni/src/hev-mapped-dns.c:241-253 | All records are written behind the questions if and only if they fit |
| DnsAnswers.OneAnswerEach | app/src/main/jni/src/hev-mapped-dns.c:208-239 | With memory for every name there is one answer for each A/IN question, in their order |
| DnsAnswers.ReplyReads | app/src/main/jni/src/hev-mapped-dns.c:197-258 | Read back, the reply has the query's identifier and questions, the right counts and QR set, and record i has a pointer to the name of question i, type A, class IN, four bytes of address |
| DnsAnswers.NamesInReply | app/src/main/jni/src/hev-mapped-dns.c:241-250 | The name a record points to, read in the reply, is the name of its question |
| DnsAnswers.PointerExact | app/src/main/jni/src/hev-mapped-dns.c:245 | The pointer leads to the question if and only if its offset is below 0x4000, over all offsets the function takes |
| DnsAnswers.PointerLost | app/src/main/jni/src/hev-mapped-dns.c:245 | The pointer to a question at 0x4000 leads elsewhere |
| DnsAnswers.FlagsMean | app/src/main/jni/src/hev-mapped-dns.c:255 | Flag by flag: QR is set, RA is set if it or RD was, all others are the query's |
| DnsAnswers.RepliedRecursion | app/src/main/jni/src/hev-mapped-dns.c:199-255 | In the reply to any answered query, RA equals RD if and only if the query did not come with RA and without RD |
| DnsAnswers.RecursionAvailableKept | app/src/main/jni/src/hev-mapped-dns.c:255 | A query with RA and without RD, which is answered with RA |
| DnsAnswers.AddressFindsIndex | app/src/main/jni/src/hev-mapped-dns.c:233-267 | The host bits of an invented address are the index it was made from |
| DnsAnswers.AnsweredAddresses | app/src/main/jni/src/hev-mapped-dns.c:179-279 | After a query with at most max A/IN questions, looking up any answered address, after any other lookups, gives the name of that answer's question, although the query itself may have evicted names |
| DnsAnswers.AnswerLeadsExactly | app/src/main/jni/src/hev-mapped-dns.c:207-279 | Answer by answer, however many questions there are: an address given for a name that the query does not ask for again leads to that name, after any lookups, if and only if fewer than max names are answered after it |
| SocksAddress.DecodeEncodes | app/src/main/jni/src/core/src/hev-socks5-misc.c:118-159 | Every address comes back from its encoding, whose length its first two bytes tell |
| SocksAddress.EncodeDecodes | app/src/main/jni/src/core/src/hev-socks5-misc.c:118-159 | And every well-formed encoding comes back from its address |
| SocksAddress.SockRoundTripExactly | app/src/main/jni/src/core/src/hev-socks5-misc.c:162-227 | Through a socket address and back, an address stays as it is if and only if it is not an IPv6 address that maps an IPv4 one |
| SocksAddress.MappedComesBack | app/src/main/jni/src/core/src/hev-socks5-misc.c:162-227 | The address ::ffff:1.2.3.4 comes back as 1.2.3.4 |
| SocksAddress.SockFromAddress | app/src/main/jni/src/core/src/hev-socks5-misc.c:162-227 | Every socket address comes back from the address it is written as |
| SocksNetwork.Confluence | app/src/main/jni/src/core/src/hev-socks5-client.c:326-401 | Of two runs of client, server and the bytes between them, if one comes to a standstill then the other, whatever order its reads, writes and deliveries took, can be continued to the same one, in the same number of moves |
| SocksHandshake.ServerJudges | app/src/main/jni/src/core/src/hev-socks5-server.c:125-242 | The server passes or refuses the client's credentials as its user table says, and answers so |
| SocksHandshake.ServerServes | app/src/main/jni/src/core/src/hev-socks5-server.c:245-532 | The server reads exactly the command and the address the client wrote; its reply is 0 if and only if the address resolves and CONNECT connected, or UDP ASSOCIATE (3) or UDP over TCP (5) bound their sockets, 8 for an address that does not resolve, 4 for a failed connection, 7 for another command, 1 for a failed bind, with the bytes of the address bound or asked for; it returns success just with 0 |
| SocksHandshake.ClientConcludes | app/src/main/jni/src/core/src/hev-socks5-client.c:215-268 | The client takes the reply for success just when it is one and names an address it accepts |
| SocksHandshake.HandshakeSettles | app/src/main/jni/src/core/src/hev-socks5-client.c:326-401 | Standard or pipelined, for all credentials, commands and addresses and every interleaving: no deadlock, no endless run; the server returns success if and only if the credentials are good and the request was granted, the client if it also accepts the address told, and after success no byte is left over (sections 3 to 6 of RFC 1928, section 2 of RFC 1929) |
| SocksHandshake.PipelineEndsAsStandard | app/src/main/jni/src/core/src/hev-socks5-client.c:365-401 | Both modes end with the same result at both ends |
| SocksHandshake.CredentialsArriveWhole | app/src/main/jni/src/core/src/hev-socks5-client.c:56-91 | A user name or password arrives whole if and only if it has at most 255 bytes, and credentials of 1 to 255 bytes are accepted just when the server knows exactly these |
| SocksPeers.ServerGreeting | app/src/main/jni/src/core/src/hev-socks5-server.c:57-121 | Any greeting: the method wanted (2 with users, 0 without) if it is whole, of version 5 and offers it, else 255 and the end |
| SocksPeers.ServerLogin | app/src/main/jni/src/core/src/hev-socks5-server.c:124-242 | Any login: 0 if it is whole, of version 1, with a user and a password that are not empty and known, else 255 and the end |
| SocksPeers.ServerRequest | app/src/main/jni/src/core/src/hev-socks5-server.c:245-532 | Any request: answered as it comes about if it is complete, with 8 if its address is not whole or of no known type, 1 for another version, and not at all if shorter than five bytes |
| SocksPeers.ServerAcceptsExactly | app/src/main/jni/src/core/src/hev-socks5-server.c:217-532 | Against any peer whatever, the server returns success if and only if the peer's bytes begin with such a greeting, such a login if it has users, and a complete request that is granted |
| SocksPeers.ClientMessages | app/src/main/jni/src/core/src/hev-socks5-client.c:30-171 | Byte by byte, the client writes the greeting, login and request of RFC 1928 and RFC 1929, which a server reads back as the credentials and the request |
| SocksPeers.ClientAcceptsExactly | app/src/main/jni/src/core/src/hev-socks5-client.c:174-401 | Against any peer whatever, the client returns success if and only if the peer's bytes begin with a method it can follow, a login accepted if that was asked for, and a success with an IPv4 or IPv6 address it accepts; it has then written all its messages in order |
| TunnelSync.OneInside | app/src/main/jni/src/hev-socks5-tunnel.c:745-769 | At most one stopper is between setting and clearing WAIT, in every interleaving of any number of stoppers with init, run, event task and fini |
| TunnelSync.WritesToOpenSockets | app/src/main/jni/src/hev-socks5-tunnel.c:698-769 | The event byte is only written while the socket pair is open, and no more than two are ever unread |
| TunnelSync.ClearAfterFini | app/src/main/jni/src/hev-socks5-tunnel.c:698-719 | Once fini has passed its retry loop SEND and SENT are clear until the next init is done |
| TunnelSync.StopNotLost | app/src/main/jni/src/hev-socks5-tunnel.c:722-769 | A stop that began after the last fini and was through before run tested STOP makes run return at once or leaves a byte for the event task |
| TunnelSync.TimelyStopNotLost | app/src/main/jni/src/hev-socks5-tunnel.c:722-769 | The same over runs: whatever comes between such a stop's end and the test |
| TunnelSync.SeenStopEndsRun | app/src/main/jni/src/hev-socks5-tunnel.c:283-308 | A stop that saw SEND set is through only once a byte waits or the run is ending |
| TunnelSync.OverlappingStopLost | app/src/main/jni/src/hev-socks5-tunnel.c:722-769 | A run in which a stop that overlaps init and run is lost to that run |
| TunnelSync.UnseenStopExactly | app/src/main/jni/src/hev-socks5-tunnel.c:722-769 | With no byte unread, a stop that did not see SEND ends the next run to test STOP, whatever happens before that; the run at hand waits on, whatever happens short of another stopper's byte, if and only if it had already tested |
| TunnelSync.TestedExactly | app/src/main/jni/src/hev-socks5-tunnel.c:722-769 | From one test of STOP to the next: the flag is set again, and the next run ends at its test, if and only if a stop that did not see SEND acted in between; otherwise that run waits for a byte |
| TunnelSync.OneStopEndsOneRun | app/src/main/jni/src/hev-socks5-tunnel.c:722-769 | In any run from the start, no more tunnel runs end at their test than stops acted without seeing SEND |
| TunnelSync.UnseenFromFini | app/src/main/jni/src/hev-socks5-tunnel.c:698-707 | From the first try of fini on no stopper sees SEND before the next init is done |
| TunnelSync.StopOfRunningTunnel | app/src/main/jni/src/hev-socks5-tunnel.c:734-759 | A stop that takes WAIT while the tunnel is up is through only once a byte waits or the run is ending, whatever comes between |
| TunnelSync.CanAlwaysStop | app/src/main/jni/src/hev-socks5-tunnel.c:698-769 | Nothing is ever stuck: from every reachable state the tunnel can be brought down with no stopper inside |
| TunnelService.OneInMain | app/src/main/jni/src/hev-jni.c:101-185 | At most one worker is inside the tunnel's main, and is_running is set then, for every interleaving of start and stop calls, workers and failing system calls |
| TunnelService.JoinedOnce | app/src/main/jni/src/hev-jni.c:116-185 | A thread is joined at most once, and only after it has exited |
| TunnelService.FreedOnce | app/src/main/jni/src/hev-jni.c:101-164 | A thread's data is freed at most once, never before its thread is done with it, and has been freed when nothing is under way |
| TunnelService.CreatedAfterJoin | app/src/main/jni/src/hev-jni.c:116-164 | A thread is only created when every one before it has been joined |
| TunnelService.QuitBeforeJoin | app/src/main/jni/src/hev-jni.c:167-180 | A stop call waits for a worker in main only after it has asked the tunnel to quit |
| TunnelService.NoCallIsStuck | app/src/main/jni/src/hev-jni.c:101-185 | A call can always proceed, or waits for a worker that can |
| TunnelService.StartExactly | app/src/main/jni/src/hev-jni.c:101-164 | A whole start call at rest: it changes nothing while the tunnel runs, leaves one worker in main and both flags set if memory and a thread are granted, and a service at rest otherwise; a thread that exited by itself is joined first |
| TunnelService.StopsUnlessNone | app/src/main/jni/src/hev-jni.c:167-177 | A stop call returns at once if and only if every thread has exited and was joined |
| TunnelService.StopStops | app/src/main/jni/src/hev-jni.c:178-185 | After a stop call's join no worker is left and both flags are clear, whatever came between |
| YamlDumper.Dumper.AnchorNode | app/src/main/jni/third-part/yaml/src/dumper.c:207-238 | The recursive count ends on every graph, cycles included, and counts each node once for each time it is met, an anchor being given at the second |
| YamlDumper.Dumper.DumpNode | app/src/main/jni/third-part/yaml/src/dumper.c:264-393 | The recursive dump ends, issues a node's own events the first time it is met and an alias after that |
| YamlDumper.Dumper.Dump | app/src/main/jni/third-part/yaml/src/dumper.c:112-160 | The events of a whole document, none for an empty one |
| YamlAnchors.AnchorTextInjective | app/src/main/jni/third-part/yaml/src/dumper.c:248-257 | Different anchors are spelled differently |
| YamlAnchors.AnchorFits | app/src/main/jni/third-part/yaml/src/dumper.c:248-257 | The text of any 32-bit anchor, with its zero, fits the buffer made for it |
| YamlDocument.DumpedAnchors | app/src/main/jni/third-part/yaml/src/dumper.c:206-393 | In the dump of any document, every alias names an anchor given earlier, and no anchor is given twice |
| YamlLoader.Loader.LoadNodes | app/src/main/jni/third-part/yaml/src/loader.c:217-257 | The loop over the events of a document, with its stacks of nodes, aliases and open collections, follows the simple loader and fails when that does, with the same error |
| YamlLoader.AcceptedAnchors | app/src/main/jni/third-part/yaml/src/loader.c:264-368 | In events that load, every alias names an anchor given earlier, and no anchor is given twice |
| YamlLoaded.LoadedExactly | app/src/main/jni/third-part/yaml/src/loader.c:264-544 | Any events that load: one node for each event of one, in order, with its kind and value, and its tag, or the default tag of its kind (tag:yaml.org,2002:str, seq or map) if it has none or the lone exclamation mark; its children, in order, are the nodes of the events directly inside of it and of the anchors aliased there |
| YamlReload.LoadWalk | app/src/main/jni/third-part/yaml/src/loader.c:217-544 | Loading the events of any part of a dump adds just the nodes met first in it, hangs its root below the open collection, and leaves the open collections as they were |
| YamlDocument.DumpLoads | app/src/main/jni/third-part/yaml/src/loader.c:217-544 | Loading the events of any dump gives the nodes in the order they were met, under their new indices |
| YamlDocument.Reload | app/src/main/jni/third-part/yaml/src/dumper.c:112-160 | Dumper and loader run one after the other give that graph |
| YamlDocument.ReloadedIsomorphic | app/src/main/jni/third-part/yaml/src/loader.c:217-544 | That graph is isomorphic to its part of the document: a one-to-one correspondence, root to root, that keeps kinds, scalar values and the order of children |
| YamlDocument.OrderIsReachable | app/src/main/jni/third-part/yaml/src/dumper.c:206-393 | That part is just what can be reached from the root |
| YamlDocument.TagKeptExactly | app/src/main/jni/third-part/yaml/src/loader.c:384-388 | A tag comes back if and only if it is not the lone exclamation mark |
| YamlLoaded.ImplicitExactly | app/src/main/jni/third-part/yaml/src/dumper.c:310-393 | A dumped node's event says that its tag may be left out if and only if the loader gives it back without one |
| YamlLoaded.ImplicitTagsComeBack | app/src/main/jni/third-part/yaml/src/dumper.c:310-393 | A dump with all those tags left out loads as the same |
| YamlDocument.BangTagLost | app/src/main/jni/third-part/yaml/src/loader.c:384-388 | A document whose tag does not come back |
| YamlParser.Machine.Parse | app/src/main/jni/third-part/yaml/src/parser.c:170-304 | The parser with its token queue, state and mark stacks makes the step of the specification, and stays put after the end or an error |
| YamlNesting.StepGood | app/src/main/jni/third-part/yaml/src/parser.c:225-1199 | Every step from a sound parser pops no empty stack, keeps the events well nested and the stacks in shape, and gets nearer the end |
| YamlNesting.RunGood | app/src/main/jni/third-part/yaml/src/parser.c:225-1199 | The events of any token stream are well nested, with as many values as keys in each mapping, complete unless the run fails, and at most three to a token; no empty stack is ever popped |
| YamlGrammar.NodeParses | app/src/main/jni/third-part/yaml/src/parser.c:529-717 | Every derivation of a node, whatever follows it, is parsed to the events of that derivation |
| YamlTags.TagMeans | app/src/main/jni/third-part/yaml/src/parser.c:593-635 | The full tag of a node: the prefix its handle was declared for in the document, or that of ! and !! by default, and then its suffix; the suffix alone for an empty handle; any other handle is an error |
| YamlTags.OmittedLoads | app/src/main/jni/third-part/yaml/src/parser.c:1206-1223 | A node that is left out is an empty plain scalar without anchor and tag, and is loaded as an empty string |
| YamlGrammar.GrammarIsParsed | app/src/main/jni/third-part/yaml/src/parser.c:2-40 | Every derivation of a stream in the grammar of the parser's own comments, with its tag handles declared and no directive repeated, is parsed to its events and nothing else, whatever comes beyond it; behind an empty key of a flow sequence a derivation has what the parser reads, and the value without a key is not in it |
| YamlAccepted.NodeDerived | app/src/main/jni/third-part/yaml/src/parser.c:529-717 | The converse for a node: any run of the parser over one is that of a derivation, token by token and event by event |
| YamlAccepted.StreamDerived | app/src/main/jni/third-part/yaml/src/parser.c:170-1199 | Any run to the end of a stream is that of a derivation, which is constructed |
| YamlAccepted.ParsedExactly | app/src/main/jni/third-part/yaml/src/parser.c:170-1199 | For all tokens and events: the parser gets to the end with these events if and only if the tokens begin with a derivation that has them |
| YamlGrammar.EmptyKeyExactly | app/src/main/jni/third-part/yaml/src/parser.c:1010-1031 | A pair with an empty key in a flow sequence is parsed as the grammar has it if and only if its value is given and empty, or is left out and only a last comma follows |
| YamlGrammar.EmptyKeyLosesValue | app/src/main/jni/third-part/yaml/src/parser.c:1010-1031 | Any other value behind an empty key is lost, and a syntax error |
| YamlGrammar.EmptyKeyLosesComma | app/src/main/jni/third-part/yaml/src/parser.c:1010-1031 | Without a value, the comma before another entry is lost |
| YamlGrammar.EmptyKeyLosesEnd | app/src/main/jni/third-part/yaml/src/parser.c:1010-1031 | Without a value, the closing bracket is lost |
| YamlGrammar.ValueWithoutKeyRefused | app/src/main/jni/third-part/yaml/src/parser.c:834-884 | The grammar's value without a key in a block mapping is always a syntax error, in the first pair and in any other |
| YamlParsed.ParsedLoads | app/src/main/jni/third-part/yaml/src/loader.c:217-257 | On what the parser makes of any tokens the loader never fails an assertion: only for an undefined alias, a repeated anchor or a full stack |
| YamlEmitter.Machine.Emit | app/src/main/jni/third-part/yaml/src/emitter.c:281-357 | The emitter with its queue and its state and indentation stacks takes an event and then all that need not be held back, as the specification does |
| YamlEmitter.StepRight | app/src/main/jni/third-part/yaml/src/emitter.c:424-1102 | A step goes on just when its event keeps the stream well nested and has no error; state and indentation stacks then follow the nesting, and no empty stack is popped |
| YamlEmitter.DrainRight | app/src/main/jni/third-part/yaml/src/emitter.c:281-297 | What was taken is well nested, and if the machine stops it is at an event that is not, or that has an error |
| YamlEmitter.FeedFollows | app/src/main/jni/third-part/yaml/src/emitter.c:281-357 | For any events whatever: those taken are well nested, no more than three are held back, and a refusal has a cause |
| YamlEmitter.FeedRight | app/src/main/jni/third-part/yaml/src/emitter.c:281-488 | A well-nested, complete stream without errors is taken to its last event, and the queue and every stack are empty then |
| YamlEmitter.ParsedIsEmitted | app/src/main/jni/third-part/yaml/src/emitter.c:281-488 | Whatever tokens the parser gets through to their end, the emitter takes all their events and is back at its starting depth |
| YamlDumped.DumpNests | app/src/main/jni/third-part/yaml/src/dumper.c:112-160 | The events of any document keep the stream well nested and leave nothing of it open |
| YamlDumped.DumpsAreEmitted | app/src/main/jni/third-part/yaml/src/dumper.c:62-160 | Of a stream of dumped documents, up to the first empty one, which closes it, the emitter takes every event, and ends with empty queue and stacks at its starting depth |
| YamlEmitter.EmptyIsSettled | app/src/main/jni/third-part/yaml/src/emitter.c:309-357 | Enough is held back: whether a collection is empty no longer depends on what comes later |
| YamlLayout.AllLaid | app/src/main/jni/third-part/yaml/src/emitter.c:398-416 | At any point of any run: inside a flow collection there are flow collections only, and in canonical mode no others; the outermost collection is not indented (by one step in flow style), any other by one step from what is around it, or not at all if it is a block sequence |
| YamlLayout.FlowExactly | app/src/main/jni/third-part/yaml/src/emitter.c:1060-1107 | A collection begins in flow style if and only if it stands in one, canonical mode or its event asks for it, or it is empty |
| YamlLayout.IndentExactly | app/src/main/jni/third-part/yaml/src/emitter.c:398-416 | A collection inside another is indented one step more, but not a block sequence where that is not asked for, and gives it back at its end |
| YamlLayout.SimpleExactly | app/src/main/jni/third-part/yaml/src/emitter.c:833-960 | A key is written as a simple one if and only if it is short, no collection with children, and not in canonical flow style |
| YamlLayout.StepChosen | app/src/main/jni/third-part/yaml/src/emitter.c:493-520 | The step of indentation is the one asked for if it is from 2 to 9, and two otherwise |
| YamlLayout.HeldExactly | app/src/main/jni/third-part/yaml/src/emitter.c:305-357 | Held back is the start of a document until one event follows, of a sequence until two do, of a mapping until three do, unless its end is there before, and no other event |
| YamlReader.Reader.UpdateBuffer | app/src/main/jni/third-part/yaml/src/reader.c:142-469 | Fills the buffer to the length asked for or to the end, only ever adds to what was made, and fails only for a failing handler, input without a meaning or a file too long |
| YamlReader.Reader.AllRead | app/src/main/jni/third-part/yaml/src/reader.c:142-469 | Whatever pieces the input came in: at the end it was well formed and allowed, and what was made is its characters in UTF-8 without the mark, then one NUL; UTF-8 is unchanged |
| YamlReader.Reader.Cache | app/src/main/jni/third-part/yaml/src/scanner.c:487-490 | The scanner's look ahead: enough characters are there or the end is, and nothing is passed over |
| YamlReader.Reader.Skip | app/src/main/jni/third-part/yaml/src/scanner.c:496-498 | One whole character, as long as its first byte tells, is passed over, the next of what was made |
| YamlReader.Reader.Scan | app/src/main/jni/third-part/yaml/src/scanner.c:487-498 | In any run of looking ahead and passing over, with refills in between, what is passed over is what was made, in order and with nothing lost or twice; if the characters passed over were looked for, nothing but the end of the input stops it |
| YamlReader.Reader.InMeaning | app/src/main/jni/third-part/yaml/src/reader.c:142-469 | What is passed over of a good input is the start of what that input means, and all of it, with the NUL, at the end |
| YamlReader.Reader.DecodeNext | app/src/main/jni/third-part/yaml/src/reader.c:204-402 | The loops over the octets of a character decode it as the specification does, incomplete and malformed ones included |
| Utf.AcceptsExactly | app/src/main/jni/third-part/yaml/src/reader.c:204-451 | An input is accepted if and only if it encodes allowed characters, and then comes out as the UTF-8 encoding of the same (sections 3 and 4 of RFC 3629, section 2.2 of RFC 2781) |
| Utf.AllowedExactly | app/src/main/jni/third-part/yaml/src/reader.c:404-418 | The characters allowed are those of YAML 1.1: all code points but the controls other than tab and the line breaks, DEL, the surrogates, and U+FFFE and U+FFFF |
| Utf.Utf8Unchanged | app/src/main/jni/third-part/yaml/src/reader.c:206-297 | Accepted UTF-8 comes out as it was: nothing but the shortest form is accepted |
| RingBuffer.Buffer.Reading | app/src/main/jni/src/misc/hev-ring-buffer.c:26-45 | One or two regions inside the buffer, whose bytes are just those written and not yet read |
| RingBuffer.Buffer.ReadFinish | app/src/main/jni/src/misc/hev-ring-buffer.c:48-52 | The first of the unread bytes are read |
| RingBuffer.Buffer.ReadRelease | app/src/main/jni/src/misc/hev-ring-buffer.c:55-62 | Bytes that were read give their room back; at empty both pointers are reset and nothing is lost |
| RingBuffer.Buffer.Writing | app/src/main/jni/src/misc/hev-ring-buffer.c:65-85 | One or two regions that are all the free room, in order from the write pointer |
| RingBuffer.Buffer.WriteFinish | app/src/main/jni/src/misc/hev-ring-buffer.c:88-93 | Bytes put into the front of the room become the newest unread ones |
| RingBuffer.RoomApart | app/src/main/jni/src/misc/hev-ring-buffer.c:65-85 | The free room never overlaps a byte that is unread, or read and not released |
| RingBuffer.PointersKeepDistance | app/src/main/jni/src/misc/hev-ring-buffer.c:25-93 | wp == (rp + rda_size) mod max_size, through the reset as well |
| RingBuffer.FirstInFirstOut | app/src/main/jni/src/misc/hev-ring-buffer.c:25-93 | Any run of writes, reads and releases on a new buffer gathers from its regions what a plain queue gives, and that is a prefix of the bytes put in |
| TcpSplice.Session.SpliceForward | app/src/main/jni/src/hev-socks5-session-tcp.c:45-83 | Of the queue's bytes just those the socket took, from 64 buffers at most, are freed, and lwIP may queue as many more; calls made meanwhile are taken in; the socket is shut down only at the end of an empty queue |
| TcpSplice.ForwardedMeans | app/src/main/jni/src/hev-socks5-session-tcp.c:67-78 | After a write: socket and queue together have what the queue had and what lwIP queued meanwhile, in order, and the window has grown by just the bytes written if there still is a connection |
| TcpSplice.Session.SpliceBackward | app/src/main/jni/src/hev-socks5-session-tcp.c:86-131 | What the socket gave is put into the ring, no more than there is room for; when nothing comes between, ring, bytes accepted and result are told exactly; -1 only after the shutdown, without a connection or after a failure |
| TcpSplice.Session.HandOver | app/src/main/jni/src/hev-socks5-session-tcp.c:107-127 | All that is unread is handed to lwIP, which gets just the regions it takes, cut where the ring wraps; it then has all that was read unless it refused a region, and has a gap exactly when the ring was wrapped, the first region refused and the second taken |
| TcpSplice.Session.Give | app/src/main/jni/src/hev-socks5-session-tcp.c:113-118 | lwIP gets just the regions it takes, also those after one it refused |
| TcpSplice.Session.Mainly | app/src/main/jni/src/hev-socks5-session-tcp.c:193-227 | The main loop makes the turns of its specification, one after the other, and ends only when both directions are over or the yielder says so |
| TcpSplice.Session.Drain | app/src/main/jni/src/hev-socks5-session-tcp.c:229-235 | The loop after it takes in lwIP's calls, and ends only without a connection or with all acknowledged that was read |
| TcpSplice.Session.InOrder | app/src/main/jni/src/hev-socks5-session-tcp.c:44-160 | At any time, after any socket results and lwIP calls: the socket got a prefix of what lwIP queued; while there is a connection, the window and the bytes not written yet are together all of TCP_WND; lwIP accepted a prefix of what was read if and only if it has no gap (equal bytes apart); each direction is shut down at most once, and only when all its bytes have passed |
| TcpSplice.UploadDrains | app/src/main/jni/src/hev-socks5-session-tcp.c:44-83 | If the socket takes at least a byte in each turn, all that was queued is written, in order, within as many turns as it has bytes, and one more shuts the socket down if no more will come |
| TcpSplice.DownloadPasses | app/src/main/jni/src/hev-socks5-session-tcp.c:86-131 | Whatever the socket gives in any number of turns, as long as the ring has room for it and lwIP takes it, is handed on whole and in order |
| TcpSplice.DownloadEnds | app/src/main/jni/src/hev-socks5-session-tcp.c:86-131 | When the socket has no more, sending is shut down, once |
| TcpSplice.CallsArrive | app/src/main/jni/src/hev-socks5-session-tcp.c:133-170 | No call of lwIP is lost: after any run of them queue, window and acknowledgements are the sums, the connection is there unless an error came, and nothing else has changed |
| TcpSplice.WaitingMissesNothing | app/src/main/jni/src/hev-socks5-session-tcp.c:205-227 | A loop that only waits for the socket takes in every call of lwIP, and ends when the connection is gone |
| TcpSplice.DrainMissesNothing | app/src/main/jni/src/hev-socks5-session-tcp.c:229-235 | So does the loop at the end, up to the turn at which all is acknowledged or the connection gone |
| TcpSplice.HoleExactly | app/src/main/jni/src/hev-socks5-session-tcp.c:107-121 | Bytes taken with a gap are a prefix of those read if and only if those behind the gap equal those in front |
| TcpSplice.SecondRegionAlone | app/src/main/jni/src/hev-socks5-session-tcp.c:86-131 | A run of a session from its start: with a ring of three bytes, two bytes passed and one acknowledged, the next two wrap around; lwIP refuses 10 and takes 20, so it has 1, 2, 20 of 1, 2, 10, 20 and the direction ends with -1 |
| UdpFraming.FrameExactly | app/src/main/jni/src/core/src/hev-socks5-udp.c:57-232 | A message comes back from its frame if and only if its address has at most 252 bytes, its data fits 16 bits and both fit the slot |
| UdpFraming.FrameLost | app/src/main/jni/src/core/src/hev-socks5-udp.c:57-232 | An address of 253 bytes makes a header length of 0, which is refused; 65536 bytes of data are announced as none |
| UdpFraming.MessagesArrive | app/src/main/jni/src/core/src/hev-socks5-udp.c:161-232 | A stream of frames of any messages that fit their fields and the slots gives them back in order, slot by slot, and leaves the rest |
| UdpFraming.SendMmsgTcp | app/src/main/jni/src/core/src/hev-socks5-udp.c:57-100 | All messages are framed and sent in order, or none if an address is malformed |
| UdpFraming.Connection.RecvMmsgTcp | app/src/main/jni/src/core/src/hev-socks5-udp.c:161-232 | However the stream is cut into pieces, what a call returns depends on its bytes alone, and nothing is taken when none are there yet |
| UdpFraming.CountExactly | app/src/main/jni/src/core/src/hev-socks5-udp.c:161-232 | The count returned is that of the messages read if and only if all slots are filled, the stream ends between messages or in a header after the first of them, or by chance just as many bytes into a message |
| UdpFraming.BytesCountedAsMessages | app/src/main/jni/src/core/src/hev-socks5-udp.c:161-232 | A stream that ends in a header is counted as so many messages |
| UdpFraming.DatagramExactly | app/src/main/jni/src/core/src/hev-socks5-udp.c:103-310 | A datagram gives its message back if and only if the slot did not cut it |
| UdpFraming.DatagramOctets | app/src/main/jni/src/core/src/hev-socks5-udp.c:103-158 | A datagram is two reserved bytes and a fragment number, all zero, the address and the data (section 7 of RFC 1928) |
| UdpFraming.DatagramTaken | app/src/main/jni/src/core/src/hev-socks5-udp.c:235-310 | Any datagram: nothing up to three bytes, wrong if no whole address follows, and else that address and all the rest |
| UdpFraming.RecvMmsgUdp | app/src/main/jni/src/core/src/hev-socks5-udp.c:235-310 | Each datagram gives its message or nothing if too short, and one malformed fails the call |
| IpReply.CraftIpv4UdpResponse | app/src/main/java/com/proxyvpn/tunnel/TunPacketInterceptor.kt:118-160 | The packet has addresses and ports turned around, both length fields, the answer as its payload, a header whose one's-complement sum is all ones, and the query's headers otherwise (section 3.1 of RFC 791) |
| IpReply.CalculateIpChecksum | app/src/main/java/com/proxyvpn/tunnel/TunPacketInterceptor.kt:162-181 | For a header of any length, odd included, the one's-complement sum becomes 0xFFFF, no other byte changes, and the folding loop ends (section 1 of RFC 1071) |
| IpReply.FoldedSum | app/src/main/java/com/proxyvpn/tunnel/TunPacketInterceptor.kt:165-177 | Adding up first and folding the carries afterwards is the one's-complement sum |
| IpReply.Completes | app/src/main/java/com/proxyvpn/tunnel/TunPacketInterceptor.kt:178-180 | The complement of the sum in the place of two zero bytes makes the sum all ones |
| IpReply.LengthsExactly | app/src/main/java/com/proxyvpn/tunnel/TunPacketInterceptor.kt:126-139 | The length fields are right if and only if the packet has fewer than 65536 bytes |
| IpReply.LongReplyWrong | app/src/main/java/com/proxyvpn/tunnel/TunPacketInterceptor.kt:126-139 | An answer of 65508 bytes to a query without header options: 65536 bytes that say they are none |
| IpReply.TurnedTwice | app/src/main/java/com/proxyvpn/tunnel/TunPacketInterceptor.kt:129-147 | Turning a packet around twice gives back addresses and ports |
| IpReply.HandleDnsRequest | app/src/main/java/com/proxyvpn/tunnel/TunPacketInterceptor.kt:88-108 | Every DNS packet with a payload is answered with the resolver's bytes or else with a failure to it, one without is not |
| IpReply.CreateServfailResponse | app/src/main/java/com/proxyvpn/tunnel/TunPacketInterceptor.kt:110-116 | The failure: QR set, RCODE 2, every other bit as in the request, and a request of less than 12 bytes unchanged (section 4.1.1 of RFC 1035) |
| IpReply.QueryToldExactly | app/src/main/java/com/proxyvpn/tunnel/TunPacketInterceptor.kt:72-86 | A query is told by version 4, protocol 17 and destination port 53 behind a header as long as its first byte says |
| IpReply.ReplyFromPort53 | app/src/main/java/com/proxyvpn/tunnel/TunPacketInterceptor.kt:118-160 | The reply is IPv4 with UDP from port 53, back to where the query came from |

## Findings

Where the code does not do what its grammar, its standard or its purpose asks, a lemma names an
input, and another says exactly when it does.

- A wrapped ring and results *fail, ok* of its two tcp_write calls give lwIP bytes with a gap
  (`TcpSplice.SecondRegionAlone`); `TcpSplice.Session.HandOver` and `TcpSplice.HoleExactly` say
  just when. That direction ends then, since the failure is reported.
- A stop that overlaps init and run can be lost to that run (`TunnelSync.OverlappingStopLost`,
  `TunnelSync.UnseenStopExactly`).
- In a flow sequence the parser skips the token after an empty key, so a value, a comma or the
  bracket is lost (`YamlGrammar.EmptyKeyLosesValue`, `EmptyKeyLosesComma`, `EmptyKeyLosesEnd`);
  `YamlGrammar.EmptyKeyExactly` has the two shapes that come out right.
  `YamlAccepted.ParsedExactly` says just which token streams are parsed, these included.
- A value without a key in a block mapping, which the parser's grammar has, is refused
  (`YamlGrammar.ValueWithoutKeyRefused`).
- The tag `!` does not survive dumping and loading (`YamlDocument.BangTagLost`,
  `YamlDocument.TagKeptExactly`).
- RA of a DNS reply is set from RD but never cleared (`DnsAnswers.RecursionAvailableKept`,
  `DnsAnswers.RepliedRecursion`).
- A DNS name with a zero byte in a label is cut there (`DnsAnswers.NameCut`,
  `DnsMessage.WholeName`).
- A record's pointer is wrong for offsets from 0x4000 (`DnsAnswers.PointerLost`,
  `DnsAnswers.PointerExact`). This is about `hev_mapped_dns_handle` alone: its only caller
  (hev-socks5-tunnel.c:217-221) has 1500 bytes for the reply, which never has such an offset.
- At the end of a UDP-in-TCP stream the number of bytes read can be returned as a number of
  messages (`UdpFraming.BytesCountedAsMessages`, `UdpFraming.CountExactly`).
- A frame with an address over 252 bytes or data over 65535 does not come back
  (`UdpFraming.FrameLost`, `UdpFraming.FrameExactly`).
- An IPv6 address that maps an IPv4 one comes back as the IPv4 address
  (`SocksAddress.MappedComesBack`, `SocksAddress.SockRoundTripExactly`).
- A crafted reply of 65536 bytes or more has wrong length fields (`IpReply.LongReplyWrong`,
  `IpReply.LengthsExactly`).

## Left out

- Memory management: freeing, padding and the alignment trick that keeps a colour in a parent
  pointer. `container_of` is the identity on addresses. An allocation that can fail is a parameter;
  in the YAML code, where every growth of a stack can fail, only the limits on sizes are modelled.
- Red-black tree: next, prev, last and replace, which nothing modelled here calls.
- Authenticator.Table: the users themselves; `hev_socks5_authenticator_clear` drops references, of
  which there is no count here.
- MappedDns.Mapper.New: a mapper of size 0 is made, but nothing is promised of its operations
  (`mapped_dns_init` makes none, and Find would record the entry it has just freed). No negative sizes.
- DnsHandler.Handle: the query buffer after the call (names dotted, counter byte-swapped) is not
  promised, nobody reads it.
- DnsAnswers.AnsweredAddresses: says nothing of addresses outside the network, since a lookup reads
  host bits only, and asks for a prefix netmask and a network without host bits.
- SOCKS5: time-outs, resets and short writes of the handshake; a read waits until the peer's bytes
  are there or its end has returned. What binding, resolving and connecting come to, and which bound
  addresses the client takes, are parameters; the server's service after the handshake is not there.
- TunnelSync: the sessions, network interfaces and tasks that init, run and fini set up and tear
  down. Flags are sequentially consistent.
- TunnelService: the Java side, and logging.
- TcpSplice: lwIP is taken by its contract: it calls back only while there is a connection, queues no
  more than the window of 65528 bytes and nothing after the end, acknowledges no more than it took.
  The mutex is not there, events come where the task can wait. Whether the yielder ends a wait is a
  parameter.
- UdpFraming.Connection.RecvMmsgTcp: requires slots of at least 252 bytes, as the unsigned
  difference in the length check (hev-socks5-udp.c:198) does; all callers have 1500. Errors of the
  connection other than its end are not there.
- UdpFraming.SendMmsgTcp: requires that behind an address type there are the bytes it calls for, as the
  source reads them.
- UdpFraming: the splicer that forwards between the two forms, and turning addresses into text.
- YAML documents: styles, marks, version and tag directives of the document, and opening and closing
  the stream around a dump. The two implicit flags of a dumped scalar follow from its tag and are
  not events' fields here.
- YamlDocument.Reload: asks for a document within the limits the loader's own stacks have, as one
  that was built by the library is.
- YamlParser: the scanner, which is not part of this model: tokens come from anywhere. Positions,
  error texts, and the directives as DOCUMENT-START repeats them.
- YamlEmitter: writing and analysing text. Whether an event's data is in order, and whether it is short
  enough for a simple key, are parameters, as is the column a block sequence stands in.
- YamlReader: what the scanner does with characters, beyond looking ahead and passing over them; its
  indices and columns. An encoding set by the caller beforehand, error texts and positions, the room of the
  characters' buffer. The limit on file length is kept.
- YAML writer, and any round trip at the level of text.
- IpReply: packets with a header length under 20, and what DNS resolution and writing to the device
  come to. IpReply.CraftIpv4UdpResponse requires what its caller has checked.
- The user interface, configuration, device and logging code: input and output without state to keep.
