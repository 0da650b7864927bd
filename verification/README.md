# A verified model of the psocks-engine core

The engine under `app/src/main/jni/psocks-engine` turns the packets of a tunnel into
SOCKS5 sessions.  This project models the parts of it in which many fields and many calls
have to agree, and proves what they are there for.  The models keep the form of the
source: structures that the source changes in place are classes whose methods change their
fields and arrays, with the same branches and loops; each method is proved against a
specification on values, and what the source promises is proved of that specification as
lemmas.

There are five parts.

- **Fake-IP DNS.**  `RBShape`, `RBLinks`, `RBErase` and `RBTree` are the intrusive
  red-black tree (`hev-rbtree.c`) with parent pointers and in-place rebalancing; `HevList`
  is the list; `CacheSpec` and `MappedDns` the cache that keeps one set of nodes in tree,
  list and record array at once; `DnsSpec` and `DnsReply` the reply to a query (section 4.1
  of RFC 1035); `Authenticator` the user table over the same tree.
- **YAML events.**  `YamlGrammar` is the grammar of tokens in the comments of `parser.c`,
  with the events that its nodes stand for, and `YamlEvents` the grammar of the events;
  `YamlUnambiguous` shows that tokens have one derivation.  `YamlParser` is the pushdown
  machine, and `YamlDerivation` what each of its steps adds to a derivation.  `YamlLoader`
  and `YamlDumper` are the loader and the dumper, and `YamlRoundTrip` what they do to each
  other.
- **YAML text.**  `Unicode` and `YamlReader` are the streaming decoder of `reader.c`
  (section 3 of RFC 3629, section 2.2 of RFC 2781), `YamlScanner` the token queue with its
  simple keys, and `SingleQuoted` the single-quoted scalar of emitter and scanner (section
  9.1.2 of YAML 1.1).
- **Zero-copy relay.**  `RingBuffer` is the ring with its three regions, and `TcpRelay` the
  session that lends the bytes in it to lwIP.
- **SOCKS5.**  `Socks5` says what client and server do with the bytes that have arrived
  (sections 3, 4 and 6 of RFC 1928, section 2 of RFC 1929) and what becomes of both
  together; `Handshake` has their methods; `UdpInTcp` the framing of datagrams.

`Sequences`, `Ordered`, `Words`, `CStrings` and `Options` are shared.

Environment: what the kernel, lwIP, the resolver and the read handlers answer is a
parameter, and every statement is for all of it.  lwIP is assumed to acknowledge only what
it has taken.  The text under the scanner is a sequence of pieces in order, for every such
sequence.

Every lemma carries `{:induction false}`: its proof is the one that is written.

## Findings

Four properties that one would expect do not hold in general.  For each there is an input
that shows it, and a theorem that says exactly when the code does what is expected.

- **A refused `tcp_write` can leave a gap** (`src/hev-socks5-session-tcp.c:112-120`).  When
  the readable bytes wrap around the ring there are two calls; if lwIP refuses the first and
  takes the second, the peer has bytes with a hole in front of them, although the session
  then ends with an error.  Input: `TcpRelay.GapExample`.  Condition: `Session.LendOut` (the
  bytes wrap, the first call is refused and the second is not) and `Session.TakenInOrder`.
- **Datagrams to long names are framed wrongly** (`src/core/src/hev-socks5-udp.c:82`).  The
  header length is an octet, so an address of more than 252 bytes is cut.  Input:
  `UdpInTcp.LongNameExample`.  Condition: `UdpInTcp.FrameRoundTrip` (address at most 252
  bytes, address and data at most 1500).
- **A DNS answer can point to the wrong name** (`src/hev-mapped-dns.c:236-237`).  The
  pointer keeps 8 bits of the place of the question.  Input: `DnsReply.PointerExample`.
  Condition: `DnsReply.PointerLeads` and `DnsReply.QueryAnswered` (the question starts in
  the first 256 bytes).
- **Loading again after an error trips an assertion**
  (`third-part/yaml/src/loader.c:100` and `:189`).  After an error the parser delivers no event
  without failing, and the loader takes that for an event it knows.  Input:
  `YamlLoader.LoadAgainExample`.  Condition: `YamlLoader.Loader.Load` (aborted if and
  only if the parser had failed and the stream had not been read to its end).

## Model

| member | source | states |
|---|---|---|
| RBTree.RBTree.Insert | app/src/main/jni/psocks-engine/src/core/src/hev-rbtree.c:194-333 | linking a fresh red node at a null link and running the fix-up keeps a red-black tree (parent links, black heights, no red-red edge, black root), and puts the node at exactly that place of the in-order sequence, next to the parent it was linked to; nothing else enters or leaves |
| RBTree.RBTree.InsertColor | app/src/main/jni/psocks-engine/src/core/src/hev-rbtree.c:194-333 | the loop: from a tree whose only fault is a red node below a red parent it ends with a red-black tree of the same in-order sequence, one step of the climb at a time |
| RBTree.RBTree.InsertRebalanceLeft | app/src/main/jni/psocks-engine/src/core/src/hev-rbtree.c:250-293 | inner and outer grandchild on the left: one or two rotations, and the tree is whole with the same order |
| RBTree.RBTree.InsertRebalanceRight | app/src/main/jni/psocks-engine/src/core/src/hev-rbtree.c:308-332 | the mirror image |
| RBTree.RBTree.InsertFlip | app/src/main/jni/psocks-engine/src/core/src/hev-rbtree.c:226-250 | a red uncle: colours flip, and the fault moves up two levels or is gone |
| RBTree.RBTree.Link | app/src/main/jni/psocks-engine/src/core/src/hev-rbtree.h:45-53 | the fields after a node is linked: a red leaf below its parent, or the root |
| RBTree.RBTree.Erase | app/src/main/jni/psocks-engine/src/core/src/hev-rbtree.c:628-635 | erasing any node of any red-black tree leaves a red-black tree whose in-order sequence is the old one without exactly that node |
| RBTree.RBTree.Unlink | app/src/main/jni/psocks-engine/src/core/src/hev-rbtree.c:351-444 | the node leaves, with no child, one child or two, and what is left is whole, or one black node short at the place that is returned to be rebalanced |
| RBTree.RBTree.MoveFar | app/src/main/jni/psocks-engine/src/core/src/hev-rbtree.c:399-444 | the writes that put the successor from further down in the place of the node, and every other field unchanged |
| RBTree.RBTree.EraseColor | app/src/main/jni/psocks-engine/src/core/src/hev-rbtree.c:450-626 | the loop: from a tree that is one black node short in a hole it ends with a red-black tree of the same order; it climbs one level at a time or stops |
| RBTree.RBTree.EraseBlackSiblingLeft | app/src/main/jni/psocks-engine/src/core/src/hev-rbtree.c:486-572 | a black sibling: the shortage is gone after one or two rotations, or has moved up after a colour flip |
| RBTree.RBTree.EraseBlackSiblingRight | app/src/main/jni/psocks-engine/src/core/src/hev-rbtree.c:588-625 | the mirror image |
| RBTree.RBTree.EraseRedSiblingLeft | app/src/main/jni/psocks-engine/src/core/src/hev-rbtree.c:465-486 | a red sibling rotates above the parent, and the next sibling is black |
| RBTree.RBTree.EraseRedSiblingRight | app/src/main/jni/psocks-engine/src/core/src/hev-rbtree.c:573-588 | the mirror image |
| RBTree.RBTree.Replace | app/src/main/jni/psocks-engine/src/core/src/hev-rbtree.c:335-349 | a node that is not in the tree takes the place and colour of one that is: the in-order sequence changes at that place only |
| RBTree.RBTree.ChangeChild | app/src/main/jni/psocks-engine/src/core/src/hev-rbtree.c:78-90 | which link changes, and that no other one does |
| RBTree.RBTree.RotateSetParents | app/src/main/jni/psocks-engine/src/core/src/hev-rbtree.c:97-105 | the fields after the common part of all rotations |
| RBTree.RBTree.First | app/src/main/jni/psocks-engine/src/core/src/hev-rbtree.c:168-179 | the first node of the order, or none in an empty tree |
| RBTree.RBTree.Last | app/src/main/jni/psocks-engine/src/core/src/hev-rbtree.c:181-192 | the last node of the order, or none |
| RBTree.RBTree.Next | app/src/main/jni/psocks-engine/src/core/src/hev-rbtree.c:136-166 | the next node of the order, or none behind the last one |
| RBTree.RBTree.Prev | app/src/main/jni/psocks-engine/src/core/src/hev-rbtree.c:107-134 | the node before, or none |
| RBShape.HeightBound | app/src/main/jni/psocks-engine/src/core/src/hev-rbtree.c:194-333 | no way down a red-black tree of n nodes has more than 2 log2(n + 1) nodes (stated without logarithms: two to the height is at most the square of n + 1) |
| RBShape.RotateInOrder | app/src/main/jni/psocks-engine/src/core/src/hev-rbtree.c:276-293 | a rotation keeps the in-order sequence |
| RBShape.SpliceBalanced | app/src/main/jni/psocks-engine/src/core/src/hev-rbtree.c:359-383 | taking out a node with at most one child: either the child is red and takes its colour, or what is left is short of nothing, or of one black node |
| RBShape.InsertPlace | app/src/main/jni/psocks-engine/src/core/src/hev-rbtree.h:45-53 | a null link is one place of the order, next to the node whose link it is, and a red leaf there breaks no rule but the one about red parents |
| RBErase.SuccessorNext | app/src/main/jni/psocks-engine/src/core/src/hev-rbtree.c:399-422 | the leftmost node of the right subtree is the next one in the order |
| RBErase.MovedIsExchanged | app/src/main/jni/psocks-engine/src/core/src/hev-rbtree.c:383-444 | the writes of the successor case come to an exchange of two nodes |
| MappedDns.MappedDns.Find | app/src/main/jni/psocks-engine/src/hev-mapped-dns.c:98-150 | tree, list and records are those of one set of nodes before and after, and change as the cache specification says; the result is the index of the name |
| MappedDns.MappedDns.Lookup | app/src/main/jni/psocks-engine/src/hev-mapped-dns.c:253-271 | the name of the index in the host bits, or none, as the specification says; tree, list and records keep agreeing |
| MappedDns.MappedDns.New | app/src/main/jni/psocks-engine/src/hev-mapped-dns.c:44-63 | no cache when `max` exceeds the host part, read as a signed number; else an empty one |
| MappedDns.MappedDns.constructor | app/src/main/jni/psocks-engine/src/hev-mapped-dns.c:273-294 | an empty cache in which all containers agree |
| MappedDns.MappedDns.ValidInv | app/src/main/jni/psocks-engine/src/hev-mapped-dns.c:98-150 | when the containers agree, names are distinct, and the `use` indices are the numbers below `use`, each once |
| MappedDns.MappedDns.Search | app/src/main/jni/psocks-engine/src/hev-mapped-dns.c:100-121 | the descent finds the node of the name, or the one null link where the name belongs |
| MappedDns.MappedDns.AddInstead | app/src/main/jni/psocks-engine/src/hev-mapped-dns.c:133-147 | a full cache: the least recent node leaves tree and list, and the new one gets its index and record |
| CacheSpec.FindInv | app/src/main/jni/psocks-engine/src/hev-mapped-dns.c:98-150 | finding keeps at most `max` records, distinct names and indices, never shrinks, and makes the name the most recent one |
| CacheSpec.LookupInv | app/src/main/jni/psocks-engine/src/hev-mapped-dns.c:253-271 | the same for looking up |
| CacheSpec.KeepsIndex | app/src/main/jni/psocks-engine/src/hev-mapped-dns.c:98-150 | over every run a name keeps its index if and only if at every moment fewer than `max` distinct other names have been found or looked up since it was |
| CacheSpec.FoundKeepsIndex | app/src/main/jni/psocks-engine/src/hev-mapped-dns.c:98-150 | the same from the moment a name is found |
| CacheSpec.AddressKeepsName | app/src/main/jni/psocks-engine/src/hev-mapped-dns.c:253-271 | over every such run, `net | idx` looks up to the name, for a prefix mask and a network without host bits |
| CacheSpec.EvictsLeastRecent | app/src/main/jni/psocks-engine/src/hev-mapped-dns.c:133-147 | over every run from the empty cache, a record leaves only when a new name comes to a full cache, and it is the one touched longest ago |
| CacheSpec.RunByRecency | app/src/main/jni/psocks-engine/src/hev-mapped-dns.c:98-150 | over every run the list is in the order of the last touches |
| Words.HostPart | app/src/main/jni/psocks-engine/src/hev-mapped-dns.c:253-271 | the host bits of network or host number are the host number, bit by bit |
| HevList.List.AddTail | app/src/main/jni/psocks-engine/src/misc/hev-list.c:14-25 | the sequence of the list with one node more, and both directions of links |
| HevList.List.Del | app/src/main/jni/psocks-engine/src/misc/hev-list.c:27-39 | the sequence without exactly that node |
| Ordered.Narrow | app/src/main/jni/psocks-engine/src/hev-mapped-dns.c:104-121 | each comparison of a descent keeps the name between what is left |
| DnsReply.Handle | app/src/main/jni/psocks-engine/src/hev-mapped-dns.c:174-251 | when a reply is refused, exactly; else the reply as bytes: header, questions as they came, one answer for each question for an A record; and the cache is as after finding the names of those questions in order, in both cases |
| DnsReply.QueryAnswered | app/src/main/jni/psocks-engine/src/hev-mapped-dns.c:174-251 | for every query of up to 32 well-formed questions and max at least 32: the reply has the questions; its k-th answer is for the k-th A question, its pointer leads there if and only if the question starts in the first 256 bytes, and its address looks up to the dotted name of that question |
| DnsReply.QueryIsAnswerable | app/src/main/jni/psocks-engine/src/hev-mapped-dns.c:174-251 | a well-formed query gets a reply exactly if it has at most 32 questions and there is room for it and the answers |
| DnsReply.HeaderSays | app/src/main/jni/psocks-engine/src/hev-mapped-dns.c:193-250 | the reply keeps the id and the number of questions, sets QR, copies RD to RA, and counts the answers and nothing else |
| DnsReply.PointerLeads | app/src/main/jni/psocks-engine/src/hev-mapped-dns.c:232-246 | the pointer of an answer is right if and only if the name starts below 256, and the address bytes are the address |
| DnsReply.PointerExample | app/src/main/jni/psocks-engine/src/hev-mapped-dns.c:232-246 | two questions, of which the second starts at byte 273: its pointer leads to byte 17 |
| DnsReply.ReadQuestions | app/src/main/jni/psocks-engine/src/hev-mapped-dns.c:201-230 | the loop over the questions: which ones are read and where it stops, the cache after it, and the places and addresses it notes |
| DnsReply.ReplaceLengths | app/src/main/jni/psocks-engine/src/hev-mapped-dns.c:205-213 | the length octets become dots in place, and the rest stays |
| DnsReply.WriteAnswers | app/src/main/jni/psocks-engine/src/hev-mapped-dns.c:232-246 | the answers as bytes, or failure exactly when there is no room for them |
| DnsSpec.ReadQueries | app/src/main/jni/psocks-engine/src/hev-mapped-dns.c:201-230 | reading what section 4.1 of RFC 1035 writes: every question with its place, dotted name and kind, whatever follows |
| DnsSpec.AnswersLookUp | app/src/main/jni/psocks-engine/src/hev-mapped-dns.c:174-251 | while the cache can hold all names of one query, each address of the reply looks up to its name when the reply goes out |
| Authenticator.Authenticator.Get | app/src/main/jni/psocks-engine/src/core/src/hev-socks5-authenticator.c:104-131 | the user of that name in the map, or none |
| Authenticator.Authenticator.Add | app/src/main/jni/psocks-engine/src/core/src/hev-socks5-authenticator.c:39-70 | fails if and only if the name is there, and then changes nothing; else the map has one user more |
| Authenticator.Authenticator.Del | app/src/main/jni/psocks-engine/src/core/src/hev-socks5-authenticator.c:72-102 | fails if and only if the name is not there; else the map is without it, and that user is released once and no other |
| Authenticator.Authenticator.Clear | app/src/main/jni/psocks-engine/src/core/src/hev-socks5-authenticator.c:133-145 | the map is empty, and each user has been released once |
| Authenticator.UserCmpIsOrder | app/src/main/jni/psocks-engine/src/core/src/hev-socks5-authenticator.c:46-60 | length first and then bytes is a total order, with equality of names as its zero |
| YamlParser.Parser.Parse | app/src/main/jni/psocks-engine/third-part/yaml/src/parser.c:169-189 | each event takes a derivation by the grammar on by exactly the tokens that were taken for it; it is one that the grammar of events takes at that point, its tag, anchor and value are those of the tokens, a bound on what is still to come falls, and at DOCUMENT-END both stacks are empty; there is an error if and only if the next tokens allow nothing in that state |
| YamlParser.Parser.TokensDerive | app/src/main/jni/psocks-engine/third-part/yaml/src/parser.c:3-39 | between two events the tokens taken are those of a derivation by the grammar in the comments of the parser, as far as it has come, and the events are what it stands for, with collection styles, versions, and the implicit flags of documents and nodes; at the end of the stream the tokens are those of whole documents, in which each collection has one child for each entry and a node is missing only where the grammar has it optional |
| YamlParser.Parser.ErrorsDerive | app/src/main/jni/psocks-engine/third-part/yaml/src/parser.c:169-189 | after an error the events are still those of a derivation of the first tokens |
| YamlDerivation.Derives | app/src/main/jni/psocks-engine/third-part/yaml/src/parser.c:225-304 | from every state, each event takes a derivation of what has been read on to one of what has been read then, with the tokens of that step more and that event more |
| YamlDerivation.CollectionDerives | app/src/main/jni/psocks-engine/third-part/yaml/src/parser.c:725-1199 | the same inside of a collection: a child begins, is complete or is missing, or the collection ends |
| YamlUnambiguous.Unambiguous | app/src/main/jni/psocks-engine/third-part/yaml/src/parser.c:3-39 | the tokens of a stream have one derivation by the grammar, so that the events are given by them |
| YamlUnambiguous.NodeUnique | app/src/main/jni/psocks-engine/third-part/yaml/src/parser.c:8-39 | a node is given by its tokens, whatever comes behind it |
| YamlParser.Parser.EventsAreStream | app/src/main/jni/psocks-engine/third-part/yaml/src/parser.c:169-189 | for every token sequence the events are a prefix of a stream of well-formed documents, a whole one at the end, and there are at most 3n + 1 of them for n tokens |
| YamlParser.Parser.StateMachine | app/src/main/jni/psocks-engine/third-part/yaml/src/parser.c:225-304 | one event from any state that can be reached, or an error, exactly by the tokens ahead; the two stacks fit the state again |
| YamlParser.Parser.ParseStreamStart | app/src/main/jni/psocks-engine/third-part/yaml/src/parser.c:312-331 | the first event, or an error |
| YamlParser.Parser.ParseDocumentStart | app/src/main/jni/psocks-engine/third-part/yaml/src/parser.c:341-431 | implicit and explicit documents with their directives and version, extra end indicators, and the end of the stream: each leads on as the grammar says |
| YamlParser.Parser.ParseDocumentContent | app/src/main/jni/psocks-engine/third-part/yaml/src/parser.c:439-459 | the root of a document, empty where there is none |
| YamlParser.Parser.ParseDocumentEnd | app/src/main/jni/psocks-engine/third-part/yaml/src/parser.c:469-497 | the end of a document, implicit exactly if there is no indicator, with both stacks empty and no directive left |
| YamlParser.Parser.ParseNode | app/src/main/jni/psocks-engine/third-part/yaml/src/parser.c:528-717 | an alias, or properties in any order and then content: the event is the one its tokens stand for, with anchor, resolved tag, value, style and flags, and leads on from where a node may start; an error exactly for an unknown tag handle or where nothing of a node is there |
| YamlParser.Parser.ParseBlockSequenceEntry | app/src/main/jni/psocks-engine/third-part/yaml/src/parser.c:725-775 | the next child, empty where there is none, or the end, or an error; marks and states stay in step |
| YamlParser.Parser.ParseIndentlessSequenceEntry | app/src/main/jni/psocks-engine/third-part/yaml/src/parser.c:783-819 | the same for a sequence that has no token of its own |
| YamlParser.Parser.ParseBlockMappingKey | app/src/main/jni/psocks-engine/third-part/yaml/src/parser.c:833-884 | the next key, empty where there is none, or the end, or an error |
| YamlParser.Parser.ParseBlockMappingValue | app/src/main/jni/psocks-engine/third-part/yaml/src/parser.c:898-932 | the value to each key, empty where there is none |
| YamlParser.Parser.ParseFlowSequenceEntry | app/src/main/jni/psocks-engine/third-part/yaml/src/parser.c:948-1001 | the next child, which is never empty, a pair in braces of its own, the end, with or without a comma, or an error: with the tokens that the grammar has there |
| YamlParser.Parser.ParseFlowSequenceEntryMappingKey | app/src/main/jni/psocks-engine/third-part/yaml/src/parser.c:1009-1031 | the key of such a pair; an empty one takes a token too many, as the source does |
| YamlParser.Parser.ParseFlowSequenceEntryMappingValue | app/src/main/jni/psocks-engine/third-part/yaml/src/parser.c:1039-1062 | its value |
| YamlParser.Parser.ParseFlowSequenceEntryMappingEnd | app/src/main/jni/psocks-engine/third-part/yaml/src/parser.c:1070-1083 | its end, without a token |
| YamlParser.Parser.ParseFlowMappingKey | app/src/main/jni/psocks-engine/third-part/yaml/src/parser.c:1099-1161 | the next key, the end, or an error |
| YamlParser.Parser.ParseFlowMappingValue | app/src/main/jni/psocks-engine/third-part/yaml/src/parser.c:1169-1199 | the value to each key, empty where there is none |
| YamlParser.Parser.ProcessDirectives | app/src/main/jni/psocks-engine/third-part/yaml/src/parser.c:1228-1335 | the directives of the document in order, the defaults for the handles it leaves open, and an error exactly for a second version, a version other than 1.1 and 1.2, a handle given twice, or the end of the tokens |
| YamlParser.Parser.AppendDirective | app/src/main/jni/psocks-engine/third-part/yaml/src/parser.c:1341-1374 | one more directive, unless its handle is taken, which is an error where duplicates are not allowed |
| YamlParser.Defaults | app/src/main/jni/psocks-engine/third-part/yaml/src/parser.c:1236-1335 | a tag handle means what the document's own directive says, and "!" and "!!" keep their usual meaning where it has none |
| YamlEvents.Grammar | app/src/main/jni/psocks-engine/third-part/yaml/src/parser.c:225-304 | the step-by-step acceptor takes a sequence of events to the end if and only if it is a stream of documents with one root each, collections nested, and mappings of keys and values |
| YamlEvents.Beginning | app/src/main/jni/psocks-engine/third-part/yaml/src/parser.c:169-189 | whatever the acceptor takes can be completed to such a stream |
| YamlLoader.ApplyOk | app/src/main/jni/psocks-engine/third-part/yaml/src/loader.c:216-257 | for every accepted event inside a document the loader trips over no assertion: it reports one of its two errors exactly when an alias has no anchor or an anchor is there already, and else the open collections are the path from the root, all indices are those of nodes, and all other mappings have complete pairs |
| YamlLoader.DocumentEvents | app/src/main/jni/psocks-engine/third-part/yaml/src/loader.c:216-257 | at DOCUMENT-END no collection is open and the graph is whole: every index is that of a node and every pair has both key and value |
| YamlLoader.Loader.Load | app/src/main/jni/psocks-engine/third-part/yaml/src/loader.c:86-132 | an assertion fails if and only if the parser had failed before and the stream had not been read to its end; a loaded document is what the events of its nodes say, a whole graph, with the header of its start event |
| YamlLoader.LoadAgainExample | app/src/main/jni/psocks-engine/third-part/yaml/src/loader.c:86-132 | a scanner that fails at once: the first load fails, and the second one trips an assertion |
| YamlLoader.Loader.LoadDocument | app/src/main/jni/psocks-engine/third-part/yaml/src/loader.c:184-210 | one document, or an error |
| YamlLoader.Loader.LoadNodes | app/src/main/jni/psocks-engine/third-part/yaml/src/loader.c:216-257 | the loop: graph and anchors are what the events between start and end come to |
| YamlLoader.Loader.LoadNodeAdd | app/src/main/jni/psocks-engine/third-part/yaml/src/loader.c:298-344 | the node becomes the next item, key or value of the innermost open collection |
| YamlLoader.Loader.RegisterAnchor | app/src/main/jni/psocks-engine/third-part/yaml/src/loader.c:263-292 | the anchor is registered, or is there already and that is an error |
| YamlLoader.Loader.LoadAlias | app/src/main/jni/psocks-engine/third-part/yaml/src/loader.c:350-368 | the node of the first anchor of that name becomes a child, or there is none and that is an error |
| YamlLoader.Loader.LoadScalar | app/src/main/jni/psocks-engine/third-part/yaml/src/loader.c:374-408 | one more node, with its anchor and tag, as a child |
| YamlLoader.Loader.LoadSequence | app/src/main/jni/psocks-engine/third-part/yaml/src/loader.c:414-459 | the same, and the collection is open |
| YamlLoader.Loader.LoadSequenceEnd | app/src/main/jni/psocks-engine/third-part/yaml/src/loader.c:461-476 | the innermost open collection is a sequence and closes |
| YamlLoader.Loader.LoadMapping | app/src/main/jni/psocks-engine/third-part/yaml/src/loader.c:482-527 | as for a sequence |
| YamlLoader.Loader.LoadMappingEnd | app/src/main/jni/psocks-engine/third-part/yaml/src/loader.c:529-544 | as for a sequence |
| YamlRoundTrip.RoundTrip | app/src/main/jni/psocks-engine/third-part/yaml/src/dumper.c:206-393 | for every graph with complete pairs, with shared and cyclic nodes: the events of its dump load without an error into a whole graph that is isomorphic to the part that can be reached from the root |
| YamlRoundTrip.DumpAccepted | app/src/main/jni/psocks-engine/third-part/yaml/src/dumper.c:111-160 | the events of a dump are those of one well-formed document |
| YamlRoundTrip.LoadsNode | app/src/main/jni/psocks-engine/third-part/yaml/src/loader.c:216-257 | loading the events of the walk from one node adds it as one child, with all nodes first met on the way under the next numbers |
| YamlRoundTrip.FindAliasOf | app/src/main/jni/psocks-engine/third-part/yaml/src/loader.c:350-368 | the loader finds the anchor of a node if and only if that node is loaded, and then finds that node |
| YamlRoundTrip.WalkReaches | app/src/main/jni/psocks-engine/third-part/yaml/src/dumper.c:263-294 | the walk enters nothing but nodes that can be reached from the root |
| YamlDumper.OnceInto | app/src/main/jni/psocks-engine/third-part/yaml/src/dumper.c:206-238 | each node that is reached is entered once, and every further reference is an alias; so the recursion ends, on cyclic graphs too |
| YamlDumper.CountedAnchored | app/src/main/jni/psocks-engine/third-part/yaml/src/dumper.c:206-238 | after the counting walk just the nodes with more than one reference have an anchor, and no two the same |
| YamlDumper.NamesDiffer | app/src/main/jni/psocks-engine/third-part/yaml/src/dumper.c:247-257 | different anchor numbers have different names |
| YamlDumper.NameFits | app/src/main/jni/psocks-engine/third-part/yaml/src/dumper.c:246-257 | the name of any anchor number fits its 16 bytes |
| YamlDumper.Emitter.AnchorNode | app/src/main/jni/psocks-engine/third-part/yaml/src/dumper.c:206-238 | the reference counts grow by the references of the walk from the node, and anchors come in the order of second references |
| YamlDumper.Emitter.DumpNode | app/src/main/jni/psocks-engine/third-part/yaml/src/dumper.c:263-294 | the events of the walk from the node, which marks exactly the nodes it enters |
| YamlDumper.Emitter.DumpContent | app/src/main/jni/psocks-engine/third-part/yaml/src/dumper.c:315-393 | the events of one scalar, or of one collection around those of its children |
| YamlDumper.Emitter.Dump | app/src/main/jni/psocks-engine/third-part/yaml/src/dumper.c:111-160 | the events of a whole dump, with the stream start when it is the first; an empty document closes the stream |
| YamlDumper.Emitter.Open | app/src/main/jni/psocks-engine/third-part/yaml/src/dumper.c:61-79 | the start of the stream, once |
| YamlDumper.Emitter.Close | app/src/main/jni/psocks-engine/third-part/yaml/src/dumper.c:85-105 | the end of the stream, at most once |
| YamlScanner.Scanner.Scan | app/src/main/jni/psocks-engine/third-part/yaml/src/scanner.c:742-776 | one more token is handed over, in the order of the queue, or an error; nothing after STREAM-END; and all pieces of the text that have been read have their tokens |
| YamlScanner.Scanner.FetchMoreTokens | app/src/main/jni/psocks-engine/third-part/yaml/src/scanner.c:800-854 | ends, with a head that no simple key waits for |
| YamlScanner.Scanner.FetchValue | app/src/main/jni/psocks-engine/third-part/yaml/src/scanner.c:1683-1759 | for a simple key: KEY, and in front of it BLOCK-MAPPING-START where the indentation is deeper, go right before the token that starts at the mark of the key, which is still in the queue, on the same line and at most 1024 characters back; no other key changes |
| YamlScanner.KeysInsert | app/src/main/jni/psocks-engine/third-part/yaml/src/scanner.c:1683-1759 | an insertion for the deepest key is in range and moves the token of no other key |
| YamlScanner.KeysTake | app/src/main/jni/psocks-engine/third-part/yaml/src/scanner.c:742-776 | handing over a head that no key waits for leaves every key with its token |
| YamlScanner.NestedInsert | app/src/main/jni/psocks-engine/third-part/yaml/src/scanner.c:1205-1249 | putting in the start of a block collection anywhere never makes one end before it starts |
| YamlScanner.Scanner.WholeStream | app/src/main/jni/psocks-engine/third-part/yaml/src/scanner.c:742-776 | once STREAM-END is handed over it is the last token and the only one of its kind, no block collection has ended before it started, and all have ended unless a flow collection is open; and the tokens, without those that stand for no piece, are those of all pieces before the end of the text |
| YamlScanner.Scanner.PiecesInOrder | app/src/main/jni/psocks-engine/third-part/yaml/src/scanner.c:800-854 | at any time the tokens handed over, without those that stand for no piece, stand for the first pieces of the text: each once, in order, with their kinds and marks |
| YamlScanner.PickInsert | app/src/main/jni/psocks-engine/third-part/yaml/src/scanner.c:1683-1759 | putting in a token that stands for no piece, anywhere, leaves the tokens of the pieces as they were |
| YamlScanner.Scanner.StaleSimpleKeys | app/src/main/jni/psocks-engine/third-part/yaml/src/scanner.c:1056-1090 | exactly the keys of earlier lines or more than 1024 characters back are removed, and it is an error if and only if such a key is required |
| YamlScanner.Scanner.SaveSimpleKey | app/src/main/jni/psocks-engine/third-part/yaml/src/scanner.c:1097-1128 | where a key may start, the key of the level waits for the next token, and is required at the indentation |
| YamlScanner.Scanner.RemoveSimpleKey | app/src/main/jni/psocks-engine/third-part/yaml/src/scanner.c:1134-1155 | the key of the level goes; an error if and only if it was required |
| YamlScanner.Scanner.RollIndent | app/src/main/jni/psocks-engine/third-part/yaml/src/scanner.c:1205-1249 | a deeper column opens a block collection, whose token is appended or put in at the place of a key |
| YamlScanner.Scanner.UnrollIndent | app/src/main/jni/psocks-engine/third-part/yaml/src/scanner.c:1258-1285 | one BLOCK-END for each level that is deeper than the column, and none in the flow context |
| YamlScanner.Scanner.FetchStreamStart | app/src/main/jni/psocks-engine/third-part/yaml/src/scanner.c:1291-1323 | the first token |
| YamlScanner.Scanner.FetchStreamEnd | app/src/main/jni/psocks-engine/third-part/yaml/src/scanner.c:1329-1361 | all block collections end, and the last token comes |
| YamlScanner.Scanner.FetchDirective | app/src/main/jni/psocks-engine/third-part/yaml/src/scanner.c:1367-1442 | directives and document indicators: all block collections end in front of them |
| YamlScanner.Scanner.FetchFlowCollectionStart | app/src/main/jni/psocks-engine/third-part/yaml/src/scanner.c:1448-1485 | a level deeper, where a key may start; the bracket itself may start a key |
| YamlScanner.Scanner.FetchFlowCollectionEnd | app/src/main/jni/psocks-engine/third-part/yaml/src/scanner.c:1491-1528 | a level up again, if there is one; the keys of the other levels stay |
| YamlScanner.Scanner.FetchFlowEntry | app/src/main/jni/psocks-engine/third-part/yaml/src/scanner.c:1534-1563 | the token, and a key may follow |
| YamlScanner.Scanner.FetchBlockEntryOrKey | app/src/main/jni/psocks-engine/third-part/yaml/src/scanner.c:1569-1677 | the token, with the start of a block collection in front where the column is deeper; an error where keys are not allowed in the block context |
| YamlScanner.Scanner.FetchContent | app/src/main/jni/psocks-engine/third-part/yaml/src/scanner.c:1765-1820 | anchors, aliases, tags, and quoted and plain scalars: the token, which may be a key |
| YamlScanner.Scanner.FetchBlockScalar | app/src/main/jni/psocks-engine/third-part/yaml/src/scanner.c:1826-1851 | the token, which is no key |
| YamlScanner.Scanner.FetchNextToken | app/src/main/jni/psocks-engine/third-part/yaml/src/scanner.c:860-1049 | every turn keeps the queue sound, leaves less to fetch, and puts the token of the next piece of the text behind those of the pieces before; other tokens are KEY tokens found late and the beginnings and ends of block collections and of the stream; it fails if and only if a key that is needed has become stale or the piece may not stand where it does |
| YamlScanner.Scanner.Dispatch | app/src/main/jni/psocks-engine/third-part/yaml/src/scanner.c:898-1049 | the token that the piece stands for, or an error if and only if the piece may not stand there: keys not allowed, a needed key given up, or something that cannot be scanned |
| YamlReader.Reader.UpdateBuffer | app/src/main/jni/psocks-engine/third-part/yaml/src/reader.c:141-469 | however the read handler cuts the input: the buffer has the characters asked for, or all of them and one NUL; what is decoded is a prefix of the text; nothing is written behind the buffer; a rejection is that of the bytes at that offset |
| YamlReader.Reader.WholeText | app/src/main/jni/psocks-engine/third-part/yaml/src/reader.c:141-469 | at the NUL the text is the one sequence of allowed characters whose encoding is the input behind its byte order mark |
| YamlReader.Reader.NoText | app/src/main/jni/psocks-engine/third-part/yaml/src/reader.c:141-469 | a rejected input is not the encoding of any sequence of allowed characters |
| YamlReader.ChunksDoNotMatter | app/src/main/jni/psocks-engine/third-part/yaml/src/reader.c:141-469 | two readers of the same input with any two ways of chunking that have finished have the same text, and the same rejection at the same offset if there is one |
| YamlReader.ReadAll | app/src/main/jni/psocks-engine/third-part/yaml/src/reader.c:141-469 | asking for one character at a time comes to the end or to the rejection, and takes all characters in order |
| YamlReader.Reader.DetermineEncoding | app/src/main/jni/psocks-engine/third-part/yaml/src/reader.c:50-87 | the encoding and the mark are those of the whole input, although the mark may come in pieces |
| YamlReader.Reader.UpdateRawBuffer | app/src/main/jni/psocks-engine/third-part/yaml/src/reader.c:93-132 | the raw buffer has the next bytes of the input behind those it had, which move to its start |
| YamlReader.Reader.DecodeRaw | app/src/main/jni/psocks-engine/third-part/yaml/src/reader.c:192-451 | everything in the raw buffer is decoded but the beginning of a character, or what is there is rejected |
| YamlReader.Reader.NextUtf8 | app/src/main/jni/psocks-engine/third-part/yaml/src/reader.c:206-297 | the UTF-8 decoder, octet by octet |
| YamlReader.Reader.NextUtf16 | app/src/main/jni/psocks-engine/third-part/yaml/src/reader.c:298-394 | the UTF-16 decoders, with surrogate pairs |
| YamlReader.Reader.Skip | app/src/main/jni/psocks-engine/third-part/yaml/src/scanner.c:495-499 | the next character, and the pointer at the one behind |
| Unicode.DecodeSound | app/src/main/jni/psocks-engine/third-part/yaml/src/reader.c:206-395 | what is decoded is an allowed character, and its encoding is exactly the bytes used: no overlong forms and no surrogates (section 3 of RFC 3629, section 2.2 of RFC 2781) |
| Unicode.DecodeComplete | app/src/main/jni/psocks-engine/third-part/yaml/src/reader.c:206-395 | every allowed character is decoded from its encoding, whatever follows |
| Unicode.SameText | app/src/main/jni/psocks-engine/third-part/yaml/src/reader.c:181-459 | bytes are a text, and then nothing or something that starts no character, in one way only |
| SingleQuoted.RoundTrip | app/src/main/jni/psocks-engine/third-part/yaml/src/emitter.c:1984-2048 | every value that may be single-quoted, written at any column and width with any kind of line break and followed by no quote, is scanned back as that value: doubled quotes, folded lines and doubled line breaks |
| SingleQuoted.ScalarRoundTrip | app/src/main/jni/psocks-engine/third-part/yaml/src/emitter.c:1037-1054 | the same for a scalar of a document, whose indent is always at least two |
| SingleQuoted.AnalyzeScalar | app/src/main/jni/psocks-engine/third-part/yaml/src/emitter.c:1500-1694 | the flag is set exactly for the values that are quotable: ASCII and line feeds, no space at either end or next to a break |
| SingleQuoted.Emitter.WriteSingleQuoted | app/src/main/jni/psocks-engine/third-part/yaml/src/emitter.c:1984-2048 | the loop writes what the specification of the writer says |
| SingleQuoted.Emitter.WriteIndent | app/src/main/jni/psocks-engine/third-part/yaml/src/emitter.c:1787-1805 | a line break where one is due, and spaces up to the indent |
| SingleQuoted.Emitter.WriteIndicator | app/src/main/jni/psocks-engine/third-part/yaml/src/emitter.c:1807-1830 | the quote, with a space in front where one is due |
| SingleQuoted.Scanner.ScanSingleQuoted | app/src/main/jni/psocks-engine/third-part/yaml/src/scanner.c:3024-3391 | whatever the text is: there is a value if and only if the quote is closed and no line before it begins with a document indicator, and then it is that of the lines, with the text behind the quote |
| SingleQuoted.ScanLines | app/src/main/jni/psocks-engine/third-part/yaml/src/scanner.c:3024-3391 | what the scan makes of any text: quotes are halved, blanks around line breaks dropped, one line feed becomes a space and n + 1 of them n, and CR, CR LF and NEL are line feeds but LS and PS themselves (section 9.1.2 of YAML 1.1); a document indicator at column 0, or NUL, gives no value |
| SingleQuoted.AnyText | app/src/main/jni/psocks-engine/third-part/yaml/src/scanner.c:3024-3391 | any text is such lines, up to the closing quote or the end |
| SingleQuoted.OneLine | app/src/main/jni/psocks-engine/third-part/yaml/src/scanner.c:3024-3391 | a value without breaks comes back as it is, with all its spaces and tabs |
| SingleQuoted.TwoWords | app/src/main/jni/psocks-engine/third-part/yaml/src/emitter.c:1984-2048 | between two words the line is broken exactly if it may be and the first word goes past the width |
| RingBuffer.RingBuffer.Reading | app/src/main/jni/psocks-engine/src/misc/hev-ring-buffer.c:25-45 | the one or two pieces are exactly the readable bytes, in order |
| RingBuffer.RingBuffer.Writing | app/src/main/jni/psocks-engine/src/misc/hev-ring-buffer.c:64-85 | the pieces are exactly the free bytes, in order |
| RingBuffer.RingBuffer.ReadFinish | app/src/main/jni/psocks-engine/src/misc/hev-ring-buffer.c:47-52 | that many readable bytes are lent out, and no byte changes |
| RingBuffer.RingBuffer.ReadRelease | app/src/main/jni/psocks-engine/src/misc/hev-ring-buffer.c:54-62 | the oldest lent bytes are free, and the readable ones stay |
| RingBuffer.RingBuffer.WriteFinish | app/src/main/jni/psocks-engine/src/misc/hev-ring-buffer.c:87-93 | the bytes written in are readable, behind those that were |
| RingBuffer.RingBuffer.Fill | app/src/main/jni/psocks-engine/src/hev-socks5-session-tcp.c:91-95 | reading into the free pieces overwrites nothing lent out or readable |
| TcpRelay.Session.Borrowed | app/src/main/jni/psocks-engine/src/hev-socks5-session-tcp.c:107-126 | over every interleaving of steps and callbacks, each byte that lwIP has taken and not acknowledged is unchanged in the place it was told |
| TcpRelay.Session.TakenInOrder | app/src/main/jni/psocks-engine/src/hev-socks5-session-tcp.c:109-121 | what lwIP has taken is the beginning of what was read from the socket if and only if no tcp_write was refused right before one that was taken |
| TcpRelay.Session.Complete | app/src/main/jni/psocks-engine/src/hev-socks5-session-tcp.c:195-239 | a relay that has come to its end without an error has delivered everything in both directions, in order, and all of it is acknowledged |
| TcpRelay.GapExample | app/src/main/jni/psocks-engine/src/hev-socks5-session-tcp.c:109-121 | a run of a session with a buffer of three bytes that leads to a gap |
| TcpRelay.Session.SpliceB | app/src/main/jni/psocks-engine/src/hev-socks5-session-tcp.c:85-131 | as much is read as there is room, in order; after the callbacks all that there is goes to the connection, or the end is passed on when nothing is left and the read has ended or failed |
| TcpRelay.Session.HandOver | app/src/main/jni/psocks-engine/src/hev-socks5-session-tcp.c:109-121 | each byte handed over is told its place in the pieces of the ring; a gap arises exactly if one piece is refused before one that is taken |
| TcpRelay.Session.LendOut | app/src/main/jni/psocks-engine/src/hev-socks5-session-tcp.c:107-126 | under the mutex: all that is readable is handed over, a gap arises if and only if it wraps around and the first piece is refused and the second not, and it fails exactly if a piece or the output is refused |
| TcpRelay.Session.SpliceF | app/src/main/jni/psocks-engine/src/hev-socks5-session-tcp.c:44-83 | what the write takes of the queue goes out in order and leaves it, the window goes back byte by byte, and the socket is shut exactly when the peer has ended and the queue is empty |
| TcpRelay.Session.RecvHandler | app/src/main/jni/psocks-engine/src/hev-socks5-session-tcp.c:133-152 | data joins the queue, or is refused when the window is exceeded |
| TcpRelay.Session.SentHandler | app/src/main/jni/psocks-engine/src/hev-socks5-session-tcp.c:154-163 | acknowledged bytes are released, and only those |
| TcpRelay.Session.ErrHandler | app/src/main/jni/psocks-engine/src/hev-socks5-session-tcp.c:165-172 | the connection is gone, and the relay stays sound |
| TcpRelay.Session.SpliceLoop | app/src/main/jni/psocks-engine/src/hev-socks5-session-tcp.c:213-230 | in every turn that is run each direction that has not ended is spliced once, with the results of that turn, and then come its callbacks; the loop ends when both directions have ended, and stops only where the turns end or one says so |
| TcpRelay.RanMoves | app/src/main/jni/psocks-engine/src/hev-socks5-session-tcp.c:213-230 | over all the turns: what has been written to the socket is, in order, what each write took of the queue, and what has been read are the bytes of each read for which there was room |
| TcpRelay.Session.OneCallback | app/src/main/jni/psocks-engine/src/hev-socks5-session-tcp.c:133-172 | what each callback changes, and that it changes nothing else |
| TcpRelay.HeardKeeps | app/src/main/jni/psocks-engine/src/hev-socks5-session-tcp.c:133-172 | callbacks leave alone what has been written, read and handed over, and what they deliver joins the queue |
| TcpRelay.HeardEnds | app/src/main/jni/psocks-engine/src/hev-socks5-session-tcp.c:133-172 | the connection is gone exactly if there was an error, the end of the stream is known exactly if it came, and acknowledgements come from callbacks alone |
| TcpRelay.Session.WaitAcked | app/src/main/jni/psocks-engine/src/hev-socks5-session-tcp.c:232-238 | the wait goes on as long as there is something that is not acknowledged, and ends when all is or the connection is gone |
| TcpRelay.FreeHeader | app/src/main/jni/psocks-engine/src/hev-socks5-session-tcp.c:71-75 | exactly that many bytes leave the front of the chain |
| UdpInTcp.FrameRoundTrip | app/src/main/jni/psocks-engine/src/core/src/hev-socks5-udp.c:57-232 | a datagram comes through, whatever follows it, if and only if its address is at most 252 bytes and address and data at most 1500 |
| UdpInTcp.LongNameExample | app/src/main/jni/psocks-engine/src/core/src/hev-socks5-udp.c:75-88 | a name of 254 bytes makes an address of 258: its frame is taken apart wrongly |
| UdpInTcp.ReceivedAreSent | app/src/main/jni/psocks-engine/src/core/src/hev-socks5-udp.c:57-232 | over any batches, what has been received is the beginning of the list sent, and the stream goes on with the frames of the others |
| UdpInTcp.StartsTwo | app/src/main/jni/psocks-engine/src/core/src/hev-socks5-udp.c:160-232 | what several calls receive is what the stream has, one after the other |
| UdpInTcp.Udp.SendMmsg | app/src/main/jni/psocks-engine/src/core/src/hev-socks5-udp.c:56-100 | all datagrams as frames, or nothing if one has an unknown address type |
| UdpInTcp.Udp.RecvMmsg | app/src/main/jni/psocks-engine/src/core/src/hev-socks5-udp.c:160-232 | the datagrams in the buffers are the next ones of the stream, whatever comes at a time; it stops before the buffers are full only at the end of the stream or where nothing is there, and EAGAIN is exactly the case of nothing at all |
| Socks5.RunsAgree | app/src/main/jni/psocks-engine/src/core/src/hev-socks5-client.c:319-422 | over every run of client and server, in whatever pieces the bytes arrive: what has been sent is a part of the full dialogue, a side that has a verdict has the right one, and what the server acts on is the request of the client |
| Socks5.NoDeadlock | app/src/main/jni/psocks-engine/src/core/src/hev-socks5-client.c:319-422 | when all that was sent has arrived both sides are done, for both handshakes |
| Socks5.RunsEnd | app/src/main/jni/psocks-engine/src/core/src/hev-socks5-server.c:474-528 | a run at rest has the verdict on both sides: the server succeeds exactly if it has admitted the client, the address resolves, and it could make the connection, bind the socket or open it; so does the client, unless it cannot use the address it was given; the standard and the pipelined handshake come to the same |
| Socks5.RequestAnswered | app/src/main/jni/psocks-engine/src/core/src/hev-socks5-server.c:474-528 | the reply to each request, by section 6 of RFC 1928: 0 exactly for what is possible, else 4, 1, 7 or 8 by what has failed; and the address in it reads back as the one that was connected or bound |
| Socks5.MalformedAnswered | app/src/main/jni/psocks-engine/src/core/src/hev-socks5-server.c:243-323 | the reply to what is no request: 1 for the wrong version, 8 for an unknown kind of address or one that ends too early |
| Socks5.AdmittedIsTold | app/src/main/jni/psocks-engine/src/core/src/hev-socks5-server.c:325-347 | what an admitted client is told, at the end of all that the server sends |
| Socks5.SockRoundTrip | app/src/main/jni/psocks-engine/src/core/src/hev-socks5-misc.c:161-175 | a socket address, written into a response, leads back to itself |
| Socks5.RunsStop | app/src/main/jni/psocks-engine/src/core/src/hev-socks5-client.c:319-422 | every step of a run leaves less that can arrive |
| Socks5.ServerDecodes | app/src/main/jni/psocks-engine/src/core/src/hev-socks5-server.c:241-323 | the server acts if and only if the client is admitted and the address resolves, and then on exactly its command and address |
| Socks5.ActsOnlyIfKnown | app/src/main/jni/psocks-engine/src/core/src/hev-socks5-server.c:214-323 | whatever arrives from whatever client, a server with users acts only behind a message with a user and password of its table |
| Socks5.ServerGoesOn | app/src/main/jni/psocks-engine/src/core/src/hev-socks5-server.c:57-347 | later bytes only add to what the server does |
| Socks5.ClientGoesOn | app/src/main/jni/psocks-engine/src/core/src/hev-socks5-client.c:25-262 | later bytes only add to what the client does |
| Socks5.AddrRoundTrip | app/src/main/jni/psocks-engine/src/core/src/hev-socks5-server.c:267-293 | an address is read as it is written |
| Handshake.Server.Handshake | app/src/main/jni/psocks-engine/src/core/src/hev-socks5-server.c:474-528 | with what has arrived, open or ended: the server has sent exactly what the specification says, and waits, fails or succeeds as it says, after the same act; what the replies mean is RequestAnswered |
| Handshake.Server.Auth | app/src/main/jni/psocks-engine/src/core/src/hev-socks5-server.c:214-239 | the method and user negotiation, with its replies |
| Handshake.Server.ReadAuthMethod | app/src/main/jni/psocks-engine/src/core/src/hev-socks5-server.c:57-101 | the wanted method if it is offered |
| Handshake.Server.ReadAuthUser | app/src/main/jni/psocks-engine/src/core/src/hev-socks5-server.c:124-191 | a user of the table with its password, or a refusal |
| Handshake.Server.ReadRequest | app/src/main/jni/psocks-engine/src/core/src/hev-socks5-server.c:241-323 | command and address, or the reply code of what is wrong with them |
| Handshake.Client.Handshake | app/src/main/jni/psocks-engine/src/core/src/hev-socks5-client.c:397-422 | the same for the client, with both handshakes |
| Handshake.Client.Standard | app/src/main/jni/psocks-engine/src/core/src/hev-socks5-client.c:319-356 | the dialogue in turns |
| Handshake.Client.Pipeline | app/src/main/jni/psocks-engine/src/core/src/hev-socks5-client.c:358-395 | everything sent first, and then read |
| Handshake.Client.WriteRequest | app/src/main/jni/psocks-engine/src/core/src/hev-socks5-client.c:87-153 | the request, or a refusal for an unknown kind or address type, with nothing sent |
| Handshake.Client.ReadResponse | app/src/main/jni/psocks-engine/src/core/src/hev-socks5-client.c:208-262 | success exactly for a complete response with reply 0 and an IP address that can be used |

## Left out

- Failure to allocate memory, anywhere; so `hev_mapped_dns_find` never returns -1 here.
- `hev_mapped_dns_new` with `max` of zero or less.
- The packed word `__parent_color` of the tree nodes is kept as its two fields, and a node that is in no tree is not marked by pointing to itself; what `container_of` recovers is a constant of the link.
- Addresses outside the fake network: a lookup uses the host bits only, so nothing is said about them but what the code does with these bits.
- Queries shorter than a DNS header; the byte order in which `qd` is put back into the request; and reads of the octet right behind a query, after which the code fails whatever it is.
- YamlParser.Parser.Parse: marks of events are not modelled beyond what errors report, and errors are stated for one call at a time (`Can`), not as the set of all token sequences without an error; an empty key of a pair in a flow sequence takes one token too many, as in the source, and `YamlGrammar.EmptyKey` is where the grammar has that; a key of a block mapping is never without KEY, as in the source.
- YamlScanner.Scanner.FetchNextToken: the characters of the text are not modelled here; a piece of the text comes with its kind, its place, whether it can be scanned, and whether the scan of a plain scalar reached another line.
- YamlScanner.Scanner.FetchMoreTokens: when it fails is said by the parts it is made of, `FetchNextToken` and `StaleSimpleKeys`, and not again.
- YamlScanner.Scanner.WholeStream: says nothing of block collections inside a flow collection that is never closed.
- YamlReader.Reader.UpdateBuffer: requests are at most a quarter of the raw buffer; those of the scanner are at most 8 characters.
- The place and value of reader errors other than the kind of problem and the offset; the distinction between incomplete characters and incomplete surrogate pairs.
- Double-quoted, plain and block scalars, tags, directives and comments as text, in scanner and emitter; `writer.c`; encodings other than UTF-8 in the emitter.
- SingleQuoted.Emitter.WriteSingleQuoted: values of ASCII and line feeds, with `unicode` off, which are those that `analyze_scalar` lets be quoted that way.
- YamlRoundTrip.RoundTrip: the anchors, tags and values of events are compared as the dumper gives them to the emitter; the text between emitter and parser is the subject of the other modules.
- TcpRelay.Session.SpliceF: at most 64 pieces go into one `writev`, of which the result may be any part; what `tcp_output` does inside lwIP is not modelled, nor are pbufs of length zero.
- TcpRelay.Session.Complete: timeouts and the end of the whole tunnel stop a relay at any point; the statement is for those that come to their end.
- UdpInTcp.Udp.RecvMmsg: the end of the stream inside of a frame, failing sockets and timeouts.
- Socks5.RunsAgree: sockets that fail while a side writes, and timeouts; whether a name resolves and a connection is made is the same for everyone who asks, and the sockaddr of a response to a request that was refused has whatever was in memory.
- Handshake.Server.Handshake: the descriptors and time limits that are set along the way; `BLOCKED` is not a result of the source but stands for a coroutine that waits in a receive.
- Object and class tables, references that are not counted in the table, loggers.
- The Java shell, JNI, `hev-config.c`, `hev-main.c`, the tunnel devices, `hev-socks5-tunnel.c`, the lwIP glue and hev-task-system: input and output, or easy members.
