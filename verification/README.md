# Verified models of the search engine and of the libraries it carries

This project models, in Dafny, the parts of the repository whose correctness is hardest to see
from one function body, and proves what they are for. A pointer of the C code is an index into a
sequence (an arena) and -1 is NULL; growable vectors are sequences; a mutable object of the source
is a class with the same fields. `dafny verify dfyconfig.toml` checks everything.

## The four parts

**RESP reader and command printer (hiredis).** `RespGrammar.dfy` is a recursive reference grammar
of the Redis serialization protocol as the reader understands it; `RespMachine.dfy` says what a
suspended parse stands for and what task stack and partly built reply tree look like then;
`Reader.dfy` is the reader itself, with its buffer, cursor, task stack and reply objects.
The main result is `Reader.ReadAll`: the replies and the final error depend on the bytes only,
not on how they were cut into chunks, and every handle returned stays the root of its complete
reply. `Wire.dfy` looks from the other side: what a server sends for a reply, with its type byte,
is read back as that reply, and not before its last byte. `Decimal.dfy` has the integer printer and
parser, `Command.dfy` the command printer, the argument walk of the asynchronous client, and their
round trips. `Quote.dfy` shows that quoting and splitting of command lines undo each other, and
`QuoteForms.dfy` that every way to write an argument is understood.

**Tree construction and UTF-8 (gumbo).** `Dom.dfy` and `NodeOps.dfy` have the parent-linked tree and
its operations. One pass of the adoption agency algorithm is proved in three layers:
`AdoptionSurgery.dfy` gives the tree after a pass in closed form and proves that it is a tree with
the same text order; `AdoptionSteps.dfy` shows that the single node operations add up to it;
`AdoptionWalk.dfy` and `AdoptionPass.dfy` follow stack, list and bookmark through the inner walk,
which edits both while it indexes them. `AdoptionOrder.dfy` proves that the list stays in stack
order. Two invariants follow the parser from one operation to the next. `RootedState.Rooted` holds
in every run and names no path: no open element is below a later one in the tree, special ones are
last children, and no parent of a later element ranks above a listed or special one. It is all a
pass needs, and inserting, popping, removing from the middle of the stack, the list operations,
reconstruction and every pass keep it (`RootedPass.dfy`, `RootedOps.dfy`, `RootedCall.dfy`). The
sharper `AdoptionPath.Orderly` says that the stack lies along the rightmost path; under it the text
keeps its order (`AdoptionNext.dfy`). `NoahPass.dfy` shows that the algorithm keeps the limit of
three identical entries, `RootedText.dfy` what it does to the text. `Parser.dfy` has the methods on
the mutable state, up to `Parser.GumboParser.AdoptionAgencyAlgorithm`, and
`Parser.GumboParser.Construct`, which runs any sequence of events (`ParserRun.dfy`): every text is
in the document exactly once, and in the order of the source unless step 13.5 took something or an
element left the middle of the stack. `AdoptionDrift.dfy` and `AdoptionText.dfy` say exactly when a
pass leaves the stack following the tree and the text in order, and `AdoptionExample.dfy` has an
input for each case. `Formatting.dfy` and `Reconstruction.dfy` treat the list of active formatting
elements. `Utf8.dfy` and `Utf8Stream.dfy` prove decoder, input iterator and encoder against RFC
3629.

**Asynchronous client and its hash table (hiredis).** `Async.dfy` and `AsyncContext.dfy` model the
callback queues, subscription dictionaries, flags and teardown paths; user code that re-enters the
client is an arbitrary script; `AsyncCommands.dfy` says which command and which message lead to which
dictionary and callback. `Chains.dfy`, `HashTable.dfy` and `HashIterator.dfy` prove that the
resizing chained hash table refines a finite map, and that its iterator survives deletion of the
entry it just returned.

**The search engine.** `Crawl.dfy` is the distributed crawl as interleaved atomic Redis steps, and
`CrawlProgress.dfy` what a run achieves: a crawl at rest below its limit has reached everything;
`DocumentStore.dfy` the LRU cache with its lock gap, `Tokens.dfy` and `SearchIndex.dfy` indexing and
retrieval against a scan of all documents, `Highlight.dfy` escaping and highlighting of a snippet.

## Findings

The models follow the code where it differs from its documentation or from the standard it
implements.

- hiredis/README.md speaks of a nesting limit of 7; the reader has none (hiredis/read.c:470-493,
  504). The two bytes behind a bulk payload are counted but never compared with CRLF
  (hiredis/read.c:433-434), a boolean reply also accepts a NUL byte because it is looked up with
  strchr (hiredis/read.c:339-345), and the element limit of maps is checked before the count doubles
  (hiredis/read.c:517-538).
- Step 13.5 of the adoption agency algorithm takes a formatting element off the list and goes on
  with the next one (gumbo-parser/src/parser.c:1930-1944), while section 13.2.6.4.7 of the HTML
  standard then also takes it off the stack of open elements. The stack goes on following the tree
  exactly when that step took nothing (`AdoptionDrift.StackFollowsTree`);
  `<b><i><em><strong><u><p></b>` is an input where it does not (`AdoptionExample.DeepDrifts`).
- As a consequence the algorithm may change the order of the text. After the input above followed by
  `</p></u></strong>x<p>y` the end tag `</em>` puts "y" before "x" (`AdoptionExample.TextMoves`).
  `AdoptionText.PassTextOrder` has the exact condition for one pass: no text in the furthest block,
  or the text up to the end of the common ancestor, without that of the furthest block, is the text
  before the furthest block. A whole call, from any state that occurs, changes the order of no other
  text; and of none if the element below the formatting element on the stack is on the rightmost
  path.
- all_attributes_match compares one way only. That is equality for attribute lists without names
  that differ in case only (`Formatting.MatchIsEquality`); without that it is not even symmetric
  (`Formatting.RepeatedNames`). Such lists do not reach it, because the tokenizer drops repeated
  names (gumbo-parser/src/tokenizer.c:786-799).
- A connection freed from a push handler stays allocated until the next regular callback has run
  (hiredis/async.c:596-600, 634-645), and the timeout loop runs before new commands are refused
  (hiredis/async.c:804-812), so commands sent from there are abandoned in the same loop.
- dictReplace reports success-like 0 without storing a new key when the table is full and cannot
  grow (hiredis/dict.c:169-191).
- For a row that does not exist, getHeader caches a header with id 0 and getContent one with the
  requested id (DocumentStore.cpp:65-90, 175-182; `DocumentStore.AbsentHeaders`); coherence is claimed
  for existing rows.
- A text that ends with a backslash cannot be written in single quotes for sdssplitargs: the
  backslash would escape the closing quote (hiredis/sds.c:995-998; `QuoteForms.BackslashAtEnd`).
- sdsll2str negates a signed number (hiredis/sds.c:441); for the smallest 64-bit number that is signed
  overflow in C, and `Decimal.Sdsll2str` takes it to wrap around.
- Decoding an encoded character gives it back exactly if it is a Unicode scalar value other than CR
  that HTML does not forbid (`Utf8Stream.EncodeThenRead`).

## Model

| member | source | states |
|---|---|---|
| RespGrammar.LineEnd | hiredis/read.c:125-148 | a line ends at the first CRLF, and there is none when it says so |
| RespGrammar.BodyStable | hiredis/read.c:269-572 | once an item is decided (a leaf, a header, an error), more bytes never change the decision |
| RespMachine.FinishDelivers | hiredis/read.c:240-267 | handing a finished element to the open aggregates, closing those that become full, is what the recursive grammar does with it |
| RespMachine.StepRefines | hiredis/read.c:574-657 | reading one item keeps everything the grammar will still find, whatever bytes follow |
| RespMachine.TypeByteRefines | hiredis/read.c:579-636 | so does reading a type byte, known or not |
| RespMachine.StuckFuture | hiredis/read.c:742-793 | a reader that can make no step has delivered all complete replies |
| RespMachine.CreateKeepsChain | hiredis/hiredis.c:126-203 | a new object stored in its parent's slot keeps the shape: task i's parent is task i-1, slots before idx are complete, later ones NULL |
| RespMachine.FullCloses | hiredis/read.c:249-257 | when the last slot of an aggregate is filled, the aggregate and everything below it is complete |
| RespMachine.NextSlot | hiredis/read.c:258-264 | otherwise the task moves to the next slot and the finished ones keep their values |
| RespMachine.Descend | hiredis/read.c:538-560 | opening a non-empty aggregate adds one task whose slots are all NULL |
| RespMachine.BuiltFrame | hiredis/hiredis.c:126-203 | a finished reply subtree is not affected by anything built later |
| Reader.SeekNewline | hiredis/read.c:125-148 | the memchr loop finds the first CRLF |
| Reader.RedisReader.SetError | hiredis/read.c:53-75 | an error drops partial reply and input for good |
| Reader.RedisReader.MoveToNextTask | hiredis/read.c:240-267 | the loop up the stack delivers a finished element as the grammar demands, and keeps the stack shape or finishes the reply |
| Reader.RedisReader.CreateObject | hiredis/hiredis.c:126-203 | a reply constructor allocates one object and stores it in the slot of the current task |
| Reader.RedisReader.ProcessLineItem | hiredis/read.c:269-396 | a line item of every kind is read, or rejected, as the grammar says |
| Reader.RedisReader.ProcessBulkItem | hiredis/read.c:398-468 | so is a bulk or verbatim string, including nil, bad lengths and missing bytes |
| Reader.RedisReader.Grow | hiredis/read.c:470-493 | the stack grows by nine tasks and keeps its shape |
| Reader.RedisReader.ProcessAggregateItem | hiredis/read.c:496-572 | an aggregate header opens a task, completes an empty aggregate, or is rejected |
| Reader.RedisReader.ProcessItem | hiredis/read.c:574-657 | a successful item consumes input; in every case emitted and future replies stay what they were |
| Reader.RedisReader.Feed | hiredis/read.c:711-740 | feeding appends to the stream, whether or not the buffer is shrunk first |
| Reader.RedisReader.Compact | hiredis/read.c:775-781 | discarding at least 1024 consumed bytes changes nothing observable |
| Reader.RedisReader.GetReply | hiredis/read.c:742-793 | a returned reply is fully populated and is the next one of the stream; without one, all complete replies of the bytes so far were returned and the error state is the grammar's |
| Reader.ReadAll | hiredis/read.c:711-793 | for every byte stream and every cut into chunks, replies and final error are those of the whole stream, and at the end each handle is still the root of its complete reply |
| Reader.Drain | hiredis/read.c:742-793 | asking for replies until there is none yields all complete replies of the bytes so far |
| Reader.HandedFrame | hiredis/read.c:742-793 | replies handed out stay what they are while the reader goes on building |
| Reader.FeedingTracks | hiredis/read.c:711-740 | bytes moved from the future into the buffer change neither past nor future replies |
| Wire.LeafRoundTrip | hiredis/read.c:269-468 | written with its own type byte, a status, error, integer, nil, boolean, double, big number, string or verbatim string is read back as that reply exactly if it can be sent: in range, well-formed, and without CR and LF where it is a line |
| Wire.ReadAggregate | hiredis/read.c:496-572 | an aggregate is refused exactly if it announces too much, with pairs counted once in maps and attributes; otherwise its elements follow |
| Wire.WireRoundTrip | hiredis/read.c:574-657 | every reply that can be sent, aggregates nested to any depth included, is read back from its wire form, whatever follows |
| Wire.NilLengths | hiredis/read.c:398-527 | a string or aggregate of length -1 is nil |
| Wire.OtherBytes | hiredis/read.c:579-632 | any other first byte than the fourteen is an error that names it |
| Wire.ReplyStable | hiredis/read.c:742-793 | a reply or an error stays what it is when more bytes follow |
| Wire.NotBefore | hiredis/read.c:742-793 | a reply is complete with its last byte and not before |
| Wire.WireStream | hiredis/read.c:742-793 | a stream of replies cut off anywhere inside the next one gives just those replies, and no error |
| Wire.ReadReplies | hiredis/read.c:711-793 | the reader on such a stream, in chunks cut in any way, hands out the replies in turn, each as soon as its last byte was fed |
| Wire.CommandForm | hiredis/hiredis.c:593-638 | a printed command is the wire form of an array of strings |
| Decimal.String2ll | hiredis/read.c:162-223 | accepts exactly the canonical decimal strings of 64-bit integers, with their values |
| Decimal.ParsePrinted | hiredis/read.c:162-223 | parsing inverts printing on all 64-bit integers |
| Decimal.PrintParsed | hiredis/read.c:162-223 | every accepted string is what printing its value writes |
| Decimal.NumeralUnique | hiredis/sds.c:434-492 | a digit string without leading zero is the numeral of its value |
| Decimal.DigitAt | hiredis/sds.c:434-451 | the digit for each power of ten is the character that many behind "0" |
| Decimal.ReverseInPlace | hiredis/sds.c:452-461 | the swap loop reverses the prefix and touches nothing behind it |
| Decimal.Sdsll2str | hiredis/sds.c:434-463 | writes the decimal text, at most 20 characters and a NUL, for every long long including the smallest |
| Decimal.Sdsull2str | hiredis/sds.c:466-492 | the same for unsigned values |
| Decimal.TextShort | hiredis/sds.c:427-434 | no 64-bit integer needs more than 20 characters |
| Decimal.CountDigits | hiredis/hiredis.c:306-314 | the four-at-a-time count is the length of the numeral |
| Command.BulkLen | hiredis/hiredis.c:319-321 | the predicted length of an argument is the number of bytes printed for it |
| Command.FormatSdsCommandArgv | hiredis/hiredis.c:593-638 | predicted and printed length agree for every argument vector |
| Command.ReadCommand | hiredis/hiredis.c:593-638 | a printed command reads back as an array of exactly its arguments, and as a length error exactly when the element limit forbids it |
| Command.ReadPipeline | hiredis/hiredis.c:593-638 | any sequence of printed commands is read back command by command |
| Command.ReadCommands | hiredis/read.c:711-793 | the same through the reader: pipelined commands, cut into chunks in any way, come out one by one |
| Command.NextArgumentAt | hiredis/async.c:817-829 | the argument walk finds exactly argument i and the position of the next |
| Command.NextArgumentEnds | hiredis/async.c:817-829 | it starts at the first argument and ends with NULL after the last |
| Command.Arguments | hiredis/async.c:858-889 | the whole walk yields the argument vector |
| Quote.CatRepr | hiredis/sds.c:875-898 | appends the quoted form, escape by escape |
| Quote.SplitArgs | hiredis/sds.c:943-1059 | the flag-driven loops compute the split, with its errors for unbalanced quotes and for closing quotes not followed by a space |
| Quote.NextToken | hiredis/sds.c:953-1031 | the inner loop reads one token in bare, double- or single-quoted mode |
| Quote.EscapedTurn | hiredis/sds.c:960-990 | every escaped byte is read back as that byte, whatever stands around it |
| Quote.QuoteRoundTrip | hiredis/sds.c:875-1059 | quoting any byte strings, joining with spaces and splitting gives them back |
| QuoteForms.GlyphTurn | hiredis/sds.c:960-990 | between double quotes a character may stand for itself, behind a backslash, or in hexadecimal in either case, and is read as that character |
| QuoteForms.WordToken | hiredis/sds.c:953-1031 | an argument written bare, in double or in single quotes, or bare and then quoted, is read as what it means |
| QuoteForms.FormsRoundTrip | hiredis/sds.c:943-1059 | a line of arguments in any of these forms, with any blanks before, between and behind them, is split into exactly those arguments |
| QuoteForms.BrokenLine | hiredis/sds.c:982-1011 | after any arguments, a quote that is never closed, or closed in front of something else than a blank, gives no result |
| QuoteForms.BackslashAtEnd | hiredis/sds.c:994-1011 | in single quotes a text is read back exactly if it does not end with a backslash; otherwise there is no result |
| Dom.VectorIndexOf | gumbo-parser/src/vector.c:85-92 | the first index, or -1 |
| Dom.LeavesUnique | gumbo-parser/src/parser.c:829-882 | the text order of a subtree depends on the tree only |
| Dom.DetachedWellFormed | gumbo-parser/src/parser.c:1768-1788 | detaching any node and renumbering its siblings keeps a well-formed forest |
| Dom.InsertedWellFormed | gumbo-parser/src/parser.c:850-882 | so does inserting a root at any child position of a node that is not below it |
| Dom.AppendedIsInserted | gumbo-parser/src/parser.c:829-848 | appending is inserting behind the last child |
| NodeOps.Tree.RemoveFromParent | gumbo-parser/src/parser.c:1768-1788 | detaches the node and renumbers the siblings behind it |
| NodeOps.Tree.AppendNode | gumbo-parser/src/parser.c:829-848 | the node becomes the last child |
| NodeOps.Tree.InsertNode | gumbo-parser/src/parser.c:850-882 | the node becomes the child at that index, the siblings behind it move up |
| NodeOps.Tree.CloneNode | gumbo-parser/src/parser.c:1231-1257 | a new node with the same content, no parent and no children |
| NodeOps.Tree.AdoptChildren | gumbo-parser/src/parser.c:1986-2000 | swapping child vectors and resetting parents moves all children, and nothing else |
| AdoptionSurgery.SurgeryWellFormed | gumbo-parser/src/parser.c:1897-2003 | the tree after a pass is acyclic with consistent links; old nodes keep content and attachment, new ones are attached |
| AdoptionSurgery.SameLeaves | gumbo-parser/src/parser.c:1897-2003 | below the common ancestor and below every node off the chain the text leaves are the same, in the same order |
| AdoptionSurgery.ChainRanks | gumbo-parser/src/parser.c:1886-1891 | open elements that are each the last child of the one before are their parents' children and never repeat |
| AdoptionSteps.CloneStep | gumbo-parser/src/parser.c:1949-1968 | clone, detach, append: one turn of the walk adds one clone to the chain of clones |
| AdoptionSteps.AncestorStep | gumbo-parser/src/parser.c:1971-1980 | the last node moves to the end of the common ancestor |
| AdoptionSteps.FormattingStep | gumbo-parser/src/parser.c:1982-2003 | the new formatting element takes the children of the furthest block and becomes its only child |
| AdoptionWalk.FormEntries | gumbo-parser/src/parser.c:1928-1956 | during the walk the list has no duplicates, loses exactly the handled elements and gains exactly the clones |
| AdoptionWalk.MarkPlace | gumbo-parser/src/parser.c:1897-1962 | the bookmark stays inside the list, right behind the first clone, or behind the formatting node while nothing was cloned |
| AdoptionWalk.LastIndex | gumbo-parser/src/parser.c:1913-1920 | the handled node is found at its stack position, or not at all if it was removed |
| AdoptionWalk.OpenStep | gumbo-parser/src/parser.c:1928-1956 | what one turn does to the stack |
| AdoptionWalk.CloneInserted | gumbo-parser/src/parser.c:2025-2032 | on the stack it lands right behind the furthest block |
| AdoptionPass.NextFacts | gumbo-parser/src/parser.c:1913-1925 | the walk goes down one stack position per turn, stays inside the stack, meets a node with a parent, and meets the formatting node exactly at its position |
| AdoptionPass.OtherTurn | gumbo-parser/src/parser.c:1928-1948 | a turn that clones nothing leaves tree, list, stack and bookmark as described for the next position |
| AdoptionPass.CloneTurned | gumbo-parser/src/parser.c:1949-1968 | so does a turn that clones |
| AdoptionOrder.Arrangement | gumbo-parser/src/parser.c:1897-1969 | formatting elements, and clones in place of their originals, stand in the list in stack order throughout the walk; behind the bookmark stand only entries that stood behind the formatting node |
| AdoptionOrder.Landed | gumbo-parser/src/parser.c:2005-2023 | the new formatting element takes the place of the old one if nothing was cloned, and otherwise stands right behind the first clone; everything behind it is unchanged |
| AdoptionOrder.AgreesAfter | gumbo-parser/src/parser.c:2005-2032 | list and stack agree again, from the same stack position on as before the pass |
| AdoptionOrder.StackDistinct | gumbo-parser/src/parser.c:1949-2032 | no element is open twice after a pass |
| AdoptionPath.NewPathChain | gumbo-parser/src/parser.c:1897-2003 | the rightmost path after a pass: down to the common ancestor as before, the clones, furthest block and new formatting element, and on as before |
| AdoptionPath.NewPathAgrees | gumbo-parser/src/parser.c:1897-2032 | open elements that are on the new path are in its order |
| AdoptionPath.OrderlyAfter | gumbo-parser/src/parser.c:1806-2033 | a pass keeps the invariant: tree, stack along the rightmost path, list in stack order, no special element in the list |
| AdoptionPath.PassOnPath | gumbo-parser/src/parser.c:1855-1891 | if the element below the formatting element on the stack is on the path, furthest block and common ancestor are where the pass needs them |
| AdoptionNext.PassKeeps | gumbo-parser/src/parser.c:1806-2033 | one pass whose furthest block is on the rightmost path below the common ancestor keeps the tree well-formed, old nodes attached as before, only clones added, and the text order below every root and below the common ancestor |
| AdoptionNext.CandidateAfter | gumbo-parser/src/parser.c:1807-1829 | the next pass finds the formatting element that this pass inserted |
| AdoptionNext.NextReady | gumbo-parser/src/parser.c:1806-2033 | after a pass the conditions for another one hold again |
| AdoptionNext.TurnKeeps | gumbo-parser/src/parser.c:1806-2033 | both together, with at most four new nodes |
| AdoptionNext.StoppedOrderly | gumbo-parser/src/parser.c:1807-1882 | whichever way the loop ends, the state is orderly |
| AdoptionNext.Unlisted | gumbo-parser/src/parser.c:1835-1842 | taking an entry off the list keeps the invariant |
| AdoptionNext.Popped | gumbo-parser/src/parser.c:1872-1882 | so does popping the stack down to an element of the path |
| AdoptionExample.MisnestedReady | gumbo-parser/src/parser.c:1792-1885 | a paragraph left open inside a formatting element meets the conditions of the theorems |
| AdoptionExample.MisnestedResult | gumbo-parser/src/parser.c:1886-2032 | and the pass moves the paragraph out and its text below a clone |
| AdoptionExample.DeepDrifts | gumbo-parser/src/parser.c:1930-1944 | an input after which the stack no longer follows the tree, although it did before |
| AdoptionExample.LaterOrderly | gumbo-parser/src/parser.c:1930-1944 | a later state is still orderly, with the element below the formatting element off the path |
| AdoptionExample.LaterRooted | gumbo-parser/src/parser.c:1930-1944 | and rooted, so that the algorithm may be called in it |
| AdoptionExample.TextMoves | gumbo-parser/src/parser.c:1930-1980 | and the next pass exchanges two texts |
| AdoptionDrift.StackFollowsTree | gumbo-parser/src/parser.c:1930-1944 | the stack still follows the tree after a pass exactly if step 13.5 removed nothing |
| AdoptionDrift.PathIsStack | gumbo-parser/src/parser.c:1928-2032 | without step 13.5 a stack that was the path is the path again |
| AdoptionText.PassTextOrder | gumbo-parser/src/parser.c:1897-2003 | exactly when a pass, wherever its common ancestor is, keeps the order of the text |
| AdoptionText.OtherText | gumbo-parser/src/parser.c:1897-2003 | apart from the text of the furthest block, which moves as a whole, all text keeps its order |
| AdoptionText.LeavesOnce | gumbo-parser/src/parser.c:829-882 | no text leaf occurs twice below a node |
| Parser.GumboParser.InnerWalk | gumbo-parser/src/parser.c:1897-1969 | the walk terminates at the formatting node with tree, stack, list and bookmark as described, and its index assertions hold |
| Parser.GumboParser.NextNode | gumbo-parser/src/parser.c:1913-1925 | the next node of the walk, with the three assertions of the code |
| Parser.GumboParser.CloneTurn | gumbo-parser/src/parser.c:1949-1968 | steps 13.7 to 13.10, with the bookmark assertion |
| Parser.GumboParser.FinishTree | gumbo-parser/src/parser.c:1971-2003 | steps 14 to 17 leave the closed form of the pass |
| Parser.GumboParser.FinishList | gumbo-parser/src/parser.c:2005-2023 | step 18, with its assertions |
| Parser.GumboParser.FinishStack | gumbo-parser/src/parser.c:2025-2032 | step 19, with its assertions |
| Parser.GumboParser.Pass | gumbo-parser/src/parser.c:1886-2032 | steps 11 to 19 compute the closed form of tree, stack and list |
| Parser.GumboParser.FindFormatting | gumbo-parser/src/parser.c:1807-1829 | the last entry with the subject's tag behind the last marker |
| Parser.GumboParser.HasElementInScope | gumbo-parser/src/parser.c:1362-1382 | an open element of that tag with no scope boundary above it |
| Parser.GumboParser.FindFurthestBlock | gumbo-parser/src/parser.c:1860-1872 | the first special element from the formatting element on |
| Parser.GumboParser.CloseFormatting | gumbo-parser/src/parser.c:1872-1882 | without a furthest block everything down to the formatting element is closed |
| Parser.GumboParser.OuterTurn | gumbo-parser/src/parser.c:1806-2033 | one turn of the outer loop, from any rooted state: a pass, or one of the ways out with its exact effect |
| Parser.GumboParser.AdoptionAgencyAlgorithm | gumbo-parser/src/parser.c:1792-2035 | a call, from any rooted state, is step 1, or up to eight passes each from what steps 5 to 9 find, then a way out; it leaves a rooted state and the limit of three, adds at most 32 nodes, and all text but that of the furthest blocks keeps its order below every node; if the stack lies along a path and the call starts on it, the text order below each root is kept altogether and the stack lies along a path again, which is the stack if it was and step 13.5 took nothing |
| RootedState.PassStart | gumbo-parser/src/parser.c:1855-1925 | wherever steps 5 and 9 find something in a rooted state, a pass is well-defined and its assertions hold: the furthest block is its parent's last child, the common ancestor is above it, and every element of the walk has a parent |
| RootedPass.UpheldAfter | gumbo-parser/src/parser.c:1928-2032 | after a pass, too, the parent of an element that is open above a special or listed one is that one or ranks below it |
| RootedPass.FallingAfter | gumbo-parser/src/parser.c:1928-2032 | no open element is below a later one after a pass |
| RootedPass.SeatedAfter | gumbo-parser/src/parser.c:1897-2032 | open elements have parents and special ones are last children after a pass |
| RootedPass.RootedAfter | gumbo-parser/src/parser.c:1806-2033 | a pass keeps the state rooted, wherever its common ancestor is |
| RootedText.PassStirs | gumbo-parser/src/parser.c:1897-2003 | below every node the text apart from that of the furthest block stays the same in the same order, and no text is added |
| RootedText.WithoutMore | gumbo-parser/src/parser.c:1806-2033 | which texts are left out in several turns, all at once or one after the other, makes no difference |
| RootedText.AllText | gumbo-parser/src/parser.c:829-882 | the leaves below the root are all text nodes of the tree |
| RootedCall.OneMore | gumbo-parser/src/parser.c:1806-2033 | one more turn of a call: rooted, text moved by the turns so far, limit of three, at most four nodes a turn |
| RootedCall.StoppedRooted | gumbo-parser/src/parser.c:1807-1882 | every way out of the outer loop leaves a rooted state with the same first element |
| RootedOps.Unstacked | gumbo-parser/src/parser.c:2637-2640 | any element but the first may leave the stack from the middle |
| RootedOps.CutStack | gumbo-parser/src/parser.c:929-958 | popping keeps the state rooted |
| RootedOps.RelistedRooted | gumbo-parser/src/parser.c:1193-1216 | so does a list that loses entries or gains the current node |
| RootedOps.HungRooted | gumbo-parser/src/parser.c:850-882 | so does a new last child of the current node |
| RootedOps.PushedRooted | gumbo-parser/src/parser.c:1047-1065 | and making it the current node |
| RootedOps.RenewedRooted | gumbo-parser/src/parser.c:1294-1312 | and putting it in place of the entry it was cloned from |
| NoahPass.FormArk | gumbo-parser/src/parser.c:1928-1956 | the walk keeps at most three identical entries in every segment of the list, and no marker behind the formatting element |
| NoahPass.MovedArk | gumbo-parser/src/parser.c:2005-2023 | so does step 18 |
| NoahPass.PassArk | gumbo-parser/src/parser.c:1886-2032 | so does a pass |
| ParserRun.StraightOnTrack | gumbo-parser/src/parser.c:1807-1885 | on a stack that is the rightmost path every call starts on the path |
| ParserRun.RunsOn | gumbo-parser/src/parser.c:2387-2761 | one more event of a run: texts written once each, in order while all was calm |
| ParserRun.AllWritten | gumbo-parser/src/parser.c:2387-2761 | after any run the document's leaves are exactly the texts written, none twice |
| Parser.GumboParser.HandleCharacters | gumbo-parser/src/parser.c:2393-2402 | characters: the waiting formatting elements are opened again, then the text goes below the last of them, last in the document on a straight stack |
| Parser.GumboParser.HandleFormatting | gumbo-parser/src/parser.c:2719-2728 | the start tag of a formatting element: the same, then the new element as current node and last entry of the list |
| Parser.GumboParser.HandleMarker | gumbo-parser/src/parser.c:1193-1216 | a marker is added at the end of the list, and nothing else changes but what add_formatting_element takes off for it |
| Parser.GumboParser.HandleEnding | gumbo-parser/src/parser.c:2740-2744 | the end tag of a formatting element writes no text, and moves none on a straight stack |
| Parser.GumboParser.HandleForgetting | gumbo-parser/src/parser.c:2709-2715 | the last entry with a tag leaves list and stack |
| Parser.GumboParser.RemoveOpen | gumbo-parser/src/parser.c:2637-2640 | an element leaves the stack, wherever it is |
| Parser.GumboParser.Handle | gumbo-parser/src/parser.c:2387-2761 | every event has its effect on tree, stack and list, keeps the state rooted and the limit of three, and adds exactly its own text |
| Parser.GumboParser.Construct | gumbo-parser/src/parser.c:2387-2761 | for every sequence of events, from the root element on: every state is rooted, each text of the input is in the document exactly once, and the text is in source order if no call's step 13.5 took anything and nothing left the middle of the stack |
| Formatting.AllAttributesMatch | gumbo-parser/src/parser.c:425-437 | on lists with unique names it is equality of the sets of names and values |
| Formatting.MatchIsEquality | gumbo-parser/src/parser.c:425-437 | the one-sided comparison plus equal length is equality, by counting |
| Formatting.RepeatedNames | gumbo-parser/src/parser.c:425-437 | without unique names it is not symmetric |
| Formatting.NoahAdd | gumbo-parser/src/parser.c:1193-1216 | removing the earliest of three identical elements before adding keeps at most three in every segment |
| Formatting.NoahSame | gumbo-parser/src/parser.c:1294-1312 | replacing entries by clones keeps it |
| Formatting.NoahPrefix | gumbo-parser/src/parser.c:1315-1325 | cutting the list keeps it |
| Formatting.NoFour | gumbo-parser/src/parser.c:1170-1216 | the limit without counting: no four identical entries without a marker between them |
| Parser.GumboParser.CountFormattingElements | gumbo-parser/src/parser.c:1170-1190 | the identical elements behind the last marker, and the earliest of them |
| Parser.GumboParser.AddFormattingElement | gumbo-parser/src/parser.c:1193-1216 | the exact new list, for elements and markers, with at most three identical elements in every segment; adding a marker or the current node keeps both invariants |
| Parser.GumboParser.ClearActiveFormattingElements | gumbo-parser/src/parser.c:1315-1325 | everything from the last marker on goes, and limit and invariants hold |
| Parser.GumboParser.FirstToReconstruct | gumbo-parser/src/parser.c:1265-1291 | the entries behind the last one that is a marker or open |
| Parser.GumboParser.ReconstructActiveFormattingElements | gumbo-parser/src/parser.c:1263-1312 | exactly those entries are cloned, each below the one before, onto tree, path and stack, and nothing else changes; tree, text order, both invariants and the limit of three are kept, and the last entry is a marker or open |
| Parser.GumboParser.InsertElement | gumbo-parser/src/parser.c:1047-1065 | the new element becomes last child of the current node and current node; text and invariants are kept |
| Parser.GumboParser.InsertText | gumbo-parser/src/parser.c:884-919 | inserted text comes last below the current node, and behind all text below the start of the path if there is one |
| Parser.GumboParser.PopCurrentNode | gumbo-parser/src/parser.c:929-958 | the state stays rooted, and the path is cut with the stack |
| Parser.GumboParser.InsertFormatting | gumbo-parser/src/parser.c:2726 | a new formatting element becomes current node and last entry of the list; text, limit and both invariants are kept |
| Parser.GumboParser.StartFormatting | gumbo-parser/src/parser.c:2725-2727 | the start tag of a formatting element, all three steps, keeps the limit and both invariants |
| Reconstruction.GrownKept | gumbo-parser/src/parser.c:1296-1309 | an element appended to the current node keeps tree and text |
| Reconstruction.GrownChain | gumbo-parser/src/parser.c:1296-1309 | the rightmost path goes on to the new node |
| Reconstruction.AgreesGrow | gumbo-parser/src/parser.c:1294-1312 | and the list goes on following the stack |
| Reconstruction.ReopeningOn | gumbo-parser/src/parser.c:1294-1312 | one turn of the loop adds one clone in the place of its entry: same content, last child of the clone before it or of the current node, all other nodes and entries as they were |
| Reconstruction.AddAgrees | gumbo-parser/src/parser.c:1193-1216 | adding a marker or the current node keeps list and stack in agreement |
| Reconstruction.PushedOrderly | gumbo-parser/src/parser.c:1047-1065 | a new current node keeps the invariant |
| Reconstruction.RenewedOrderly | gumbo-parser/src/parser.c:1294-1312 | so does one that takes the place of the entry it was cloned from |
| Reconstruction.CutOrderly | gumbo-parser/src/parser.c:1315-1325 | and cutting the list |
| Reconstruction.TextAtEnd | gumbo-parser/src/parser.c:884-919 | a text node appended to the end of a rightmost path comes last below every node of the path |
| Utf8.TracksViable | gumbo-parser/src/utf8.c:63-96 | octets lead to acceptance exactly if they are a character of section 4 of RFC 3629, to rejection exactly if no character starts with them, and on acceptance the number is that of section 3 |
| Utf8.FirstOctet | gumbo-parser/src/utf8.c:88-96 | the state after a lead octet stands for exactly the characters it can start |
| Utf8.NextOctet | gumbo-parser/src/utf8.c:88-96 | so does the state after every further octet |
| Utf8.EncodeWellFormed | gumbo-parser/src/string_buffer.c:61-85 | the encoder writes a character of RFC 3629 exactly for the scalar values, and decoding it gives the number back |
| Utf8.EncodeCodePoint | gumbo-parser/src/string_buffer.c:61-85 | every character of RFC 3629 is what the encoder writes for its number |
| Utf8Stream.EncodeThenRead | gumbo-parser/src/utf8.c:127-181 | the exact condition under which the iterator gives an encoded number back |
| Utf8Stream.ScalarRead | gumbo-parser/src/utf8.c:127-201 | every Unicode character is read back as itself, but CR as LF (CR LF once), and controls other than NUL, TAB, LF, FF and CR, DEL, C1 controls and noncharacters as U+FFFD |
| Utf8Stream.TextRoundTrip | gumbo-parser/src/utf8.c:127-221 | a text of such characters survives encoding and decoding |
| Utf8Stream.Progress | gumbo-parser/src/utf8.c:127-181 | on arbitrary bytes every read consumes input, stays inside it, and never delivers CR, a surrogate or a forbidden character |
| Utf8Stream.ReadsOnce | gumbo-parser/src/utf8.c:127-181 | what a read delivers is determined by the bytes |
| Utf8Stream.Utf8Iterator.ReadChar | gumbo-parser/src/utf8.c:127-181 | the loop delivers the character, or one replacement for a maximal malformed piece, and folds CR and CR LF into LF |
| Utf8Stream.Utf8Iterator.Next | gumbo-parser/src/utf8.c:183-221 | advances unless at the end, updates line and column, and keeps offset equal to the octets consumed |
| Utf8Stream.Moves | gumbo-parser/src/utf8.c:183-194 | a line feed begins the next line at column 1, a tab goes to the next multiple of the tab stop, any other character takes one column |
| Utf8Stream.PlaceMoves | gumbo-parser/src/utf8.c:183-194 | so the line is one more than the line feeds read, and the column, in a text without tabs, one more than the characters behind the last |
| Utf8Stream.Utf8Iterator.Mark | gumbo-parser/src/utf8.c:253-256 | remembers place and position |
| Utf8Stream.Utf8Iterator.Reset | gumbo-parser/src/utf8.c:259-263 | restores place, position, width and character exactly |
| Utf8Stream.ReadAll | gumbo-parser/src/utf8.c:204-221 | running to the end terminates, decodes the whole input, and leaves the position behind it |
| Utf8Stream.StringBuffer.MaybeResize | gumbo-parser/src/string_buffer.c:33-48 | makes room and keeps the contents |
| Utf8Stream.StringBuffer.AppendCodepoint | gumbo-parser/src/string_buffer.c:61-85 | appends the encoding of the number |
| Async.KthReply | hiredis/async.c:570-662 | on runs without SUBSCRIBE and MONITOR the k-th callback taken is the k-th accepted one and got the k-th in-band reply that was used; an in-band reply goes without a callback only on runs where one was refused or the context was aborted |
| Async.SubscribedKeys | hiredis/async.c:869-889 | SUBSCRIBE adds exactly the named channels |
| Async.UnsubscribedKeys | hiredis/async.c:906-926 | UNSUBSCRIBE removes none of them before the server answers |
| AsyncCommands.IsNamed | hiredis/async.c:858-892 | a command is known by its word in any mix of cases, with or without a p in front |
| AsyncCommands.SubscribedEntries | hiredis/async.c:862-889 | every channel named leads to the callback of the command, with the count of replies it waits for; the counter of one name carries over to a next one without an entry |
| AsyncCommands.UnsubscribedEntries | hiredis/async.c:903-926 | exactly the named entries are marked, and every name beyond the first for an unmarked entry is counted as a reply to be ignored |
| AsyncCommands.CommandRegisters | hiredis/async.c:858-955 | by its word: (P)SUBSCRIBE and (P)UNSUBSCRIBE change channels or patterns and nothing else, MONITOR and all other commands wait for a reply of their own |
| AsyncCommands.Expected | hiredis/async.c:546-568 | no subscribe, message or unsubscribe push, with or without a p, is left to the push handler |
| AsyncCommands.LeftToHandler | hiredis/async.c:546-568 | a push whose word begins with any other letter is |
| AsyncCommands.MessageReaches | hiredis/async.c:470-497 | a message about a registered channel or pattern goes to the callback of its command and changes nothing |
| AsyncCommands.SessionRoundTrip | hiredis/async.c:470-540 | subscribing to and leaving a channel or pattern, both confirmed by the server, undo each other |
| AsyncContext.Run | hiredis/async.c:269-968 | for every run over any events and user code: of each event a prefix of its replies is used, all of it while the context is connected and nobody closes it; the k-th in-band reply of those goes to the callback of the k-th accepted command; accepted callbacks are those taken plus those waiting, in order; after teardown all were taken; outside subscribed mode all subscription bookkeeping is empty |
| AsyncContext.AsyncContext.Send | hiredis/async.c:834-968 | what a command does to queues and dictionaries, when it is refused, and that the laws are kept |
| AsyncContext.AsyncContext.SubscribeAll | hiredis/async.c:868-889 | the SUBSCRIBE loop, with its carried-over counter |
| AsyncContext.AsyncContext.UnsubscribeAll | hiredis/async.c:899-938 | both UNSUBSCRIBE loops |
| AsyncContext.AsyncContext.RunUserCode | hiredis/async.c:307-314 | user code that re-enters the client has exactly the effect of its actions in order: it may append to the queues, and changes no queue once the connection is closing |
| AsyncContext.AsyncContext.AbandonReplies | hiredis/async.c:368-370 | pending callbacks run once with NULL, in order |
| AsyncContext.AsyncContext.EndSubscriptions | hiredis/async.c:374-390 | each subscription callback runs once with NULL |
| AsyncContext.AsyncContext.Teardown | hiredis/async.c:362-409 | the complete order of a teardown, after which every accepted callback was taken exactly once |
| AsyncContext.AsyncContext.AsyncFree | hiredis/async.c:415-424 | freeing runs the teardown |
| AsyncContext.AsyncContext.DisconnectNow | hiredis/async.c:427-452 | a clean disconnect finds no pending callback, as asserted; teardown unless automatic freeing is off |
| AsyncContext.AsyncContext.AsyncDisconnect | hiredis/async.c:460-468 | disconnects at once exactly when no reply is pending |
| AsyncContext.AsyncContext.GetSubscribeCallback | hiredis/async.c:470-538 | the callback for a reply in subscribed mode, and the new bookkeeping |
| AsyncContext.MessageKeepsLaw | hiredis/async.c:504-538 | messages neither lose nor reorder queued callbacks, and the mode ends with empty bookkeeping and all callbacks moved in order |
| AsyncContext.SentKeepsLaw | hiredis/async.c:834-956 | so do accepted commands |
| AsyncContext.AsyncContext.ProcessReply | hiredis/async.c:586-656 | which callback every reply goes to, and in full what its turn leaves of queues and dictionaries after any user code, the callback queued again under MONITOR |
| AsyncContext.MonitorFeeds | hiredis/async.c:586-656 | under MONITOR every in-band reply goes to the one waiting callback, which goes on waiting |
| AsyncContext.AsyncContext.ProcessCallbacks | hiredis/async.c:570-662 | replies are used one by one in order until the context is freed or closing |
| AsyncContext.AsyncContext.HandleConnect | hiredis/async.c:672-707 | connection results, with a user callback that may disconnect or free |
| AsyncContext.AsyncContext.HandleRead | hiredis/async.c:709-739 | a readable socket |
| AsyncContext.AsyncContext.HandleWrite | hiredis/async.c:741-774 | a writable socket |
| AsyncContext.AsyncContext.HandleTimeout | hiredis/async.c:776-813 | a timeout does nothing when idle, and otherwise closes after the pending callbacks ran |
| Chains.AndMask | hiredis/dict.c:124 | masking with size - 1 takes the hash modulo the size |
| Chains.PushFront | hiredis/dict.c:124-126 | an entry linked in front of its bucket joins the table |
| Chains.PopFront | hiredis/dict.c:117-130 | the first entry of a bucket leaves it |
| Chains.Removed | hiredis/dict.c:204-218 | unlinking an entry in the middle of a chain removes just that entry |
| HashTable.MoveStep | hiredis/dict.c:119-130 | moving one entry keeps both tables right |
| HashTable.Dict.NextPower | hiredis/dict.c:311-320 | the next power of two, at least 4, less than twice what was asked |
| HashTable.Dict.Expand | hiredis/dict.c:92-138 | fails exactly when the size is too small or too large, and otherwise rehashes without changing the map |
| HashTable.Dict.MoveAll | hiredis/dict.c:112-132 | the loop moves every entry, so none is left as the code asserts |
| HashTable.Dict.Walk | hiredis/dict.c:255-268 | the walk along a bucket finds the entry of a key, or proves it absent |
| HashTable.Dict.Find | hiredis/dict.c:255-268 | agrees with the map |
| HashTable.Dict.KeyIndex | hiredis/dict.c:325-342 | the bucket for a new key, after growing, or -1 |
| HashTable.Dict.Add | hiredis/dict.c:141-163 | adds to the map exactly if the key is new and there is room |
| HashTable.Dict.Replace | hiredis/dict.c:169-191 | sets the value, and reports whether the key was new |
| HashTable.Dict.Delete | hiredis/dict.c:194-222 | removes the key from the map and exactly its entry from its chain |
| HashTable.Dict.Clear | hiredis/dict.c:225-247 | leaves the empty map |
| HashIterator.FlatEntries | hiredis/dict.c:270-295 | the iterator's order lists every entry once |
| HashIterator.StillStanding | hiredis/dict.c:284-293 | deleting the entry just returned does not change what is still to come |
| HashIterator.DictIterator.Next | hiredis/dict.c:277-295 | returns the next entry of that order |
| HashIterator.Traverse | hiredis/dict.c:270-295 | every entry is seen once although chosen ones are deleted on the way, and the rest remains |
| Crawl.Crawler.Step | worker_v3.cpp:62-133 | the worker's code between two Redis commands is one step of the protocol |
| Crawl.Crawler.TryPush | worker_v3.cpp:24-31 | the script pushes exactly while the counter is below the limit |
| Crawl.Overshoot | worker_v3.cpp:62-133 | for W workers and every interleaving the counter ends at most W above the limit or its start, stored pages match the counter, and no URL is fetched twice |
| Crawl.LastAccess | worker_v3.cpp:24-31 | at the limit the queue never grows again and each worker accesses the counter at most once more |
| Crawl.InvStep | worker_v3.cpp:62-133 | the invariant behind it, step by step |
| Crawl.TaskRoundTrip | worker_v3.cpp:72-76 | a link survives the queue exactly if it contains no bar |
| Crawl.UrlBeforeBar | worker_v3.cpp:72-76 | the URL of a task is what stands before its first bar |
| CrawlProgress.Fifo | worker_v3.cpp:62-133 | for every interleaving, what was queued and what was offered below the limit is what was taken and what is queued, in the same order |
| CrawlProgress.LinksSpread | worker_v3.cpp:86-125 | from any state on: a page that was fetched is stored, and each link has its push in a turn of its own, unless the INCR met the limit, as far as the worker got |
| CrawlProgress.RunKeeps | worker_v3.cpp:62-133 | in every run each task seen stays queued, popped or visited, each URL visited is claimed or fetched, each page fetched is stored and its links are seen or met the limit, and a worker has exited only at the limit |
| CrawlProgress.PagesFetched | worker_v3.cpp:86-89 | what is fetched in a run gives a page |
| CrawlProgress.CrawlComplete | worker_v3.cpp:62-133 | a crawl at rest below the limit has looked at every task it started with and at every link of every page it fetched, has stored those pages, and has visited just what was visited before and what it fetched |
| DocumentStore.UseKeepsRecency | DocumentStore.cpp:220-236 | moving to the front, or inserting and evicting, keeps the list the most recently used ids |
| DocumentStore.RowRead | DocumentStore.cpp:51-92 | every column of a row comes out in its own field, NULL as nothing |
| DocumentStore.DocumentStore.TouchLru | DocumentStore.cpp:220-227 | the id moves to the front |
| DocumentStore.DocumentStore.EvictIfNeeded | DocumentStore.cpp:229-236 | the ids at the end go, until the capacity holds |
| DocumentStore.DocumentStore.GetHeader | DocumentStore.cpp:51-92 | returns what a direct query would for an existing row, and keeps the cache valid |
| DocumentStore.DocumentStore.LookupContent | DocumentStore.cpp:134-142 | a hit returns what a direct query would |
| DocumentStore.DocumentStore.FillContent | DocumentStore.cpp:171-195 | filling keeps the cache valid, whether or not the entry appeared meanwhile |
| DocumentStore.DocumentStore.GetContent | DocumentStore.cpp:132-197 | returns the content of an existing row, whatever other threads do in the lock gap |
| DocumentStore.DocumentStore.Interfere | DocumentStore.cpp:51-197 | any steps of other threads keep list, map and capacity in agreement, and each gets the direct query's answer about an existing row |
| DocumentStore.AbsentHeaders | DocumentStore.cpp:65-90 | for a row that does not exist the two ways into the cache leave different headers |
| Tokens.GetStrs | Tokenizer.cpp:11-33 | the loop computes the tokens of a text |
| Tokens.TokensAreRuns | Tokenizer.cpp:11-33 | they are the longest runs of letters and digits of the text, capitals written small, one for one and in order, without the stop words |
| Ascii.LowerSpells | Tokenizer.cpp:20-23 | a string in small letters is the one word without capitals that it spells |
| Tokens.OnlyTokens | Tokenizer.cpp:11-33 | every token is a non-empty word of digits and small letters that is no stop word |
| Tokens.Separated | Tokenizer.cpp:20-31 | a separator splits a text in two |
| Tokens.Retokenized | Tokenizer.cpp:11-33 | tokens written out and read again are the same |
| Tokens.CaseBlind | Tokenizer.cpp:20-25 | case does not matter |
| SearchIndex.PostingsScan | Indexer.cpp:71-80 | the postings of a term list just the documents that contain it, with its count |
| SearchIndex.ScanIs | Indexer.cpp:71-80 | which is the multiplicity of the term among the tokens of the document |
| SearchIndex.Indexer.IndexDocument | Indexer.cpp:71-80 | the loop over the tokens adds exactly one posting per term of the document |
| SearchIndex.Indexer.BuildAll | Indexer.cpp:61-69 | all pages are indexed |
| SearchIndex.Indexer.SaveIndex | Indexer.cpp:82-96 | each posting becomes a row |
| SearchIndex.GatherFacts | Retriever.cpp:17-22 | a document gathers one row per term exactly if it contains all terms |
| SearchIndex.Collect | Retriever.cpp:16-22 | all rows of all terms, by document, in the order of the terms |
| SearchIndex.Retrieve | Retriever.cpp:12-36 | the documents with all terms, or else those with some |
| SearchIndex.Search | Retriever.cpp:12-36 | index and retrieval give what scanning every document gives, with the count of every term |
| Highlight.FindHits | SnippetGenerator.cpp:108-114 | every hit is an occurrence, and every occurrence starts inside a hit |
| Highlight.FoundSpelt | SnippetGenerator.cpp:100-114 | a term is found where the text spells it in any mix of cases |
| Highlight.Merge | SnippetGenerator.cpp:119-126 | sorted, separated intervals with the same union as the hits |
| Highlight.LayoutFacts | SnippetGenerator.cpp:128-132 | deleting the tags restores the text, tags are balanced and not nested, and stand around exactly the union |
| Highlight.Insert | SnippetGenerator.cpp:128-132 | inserting from the back puts every tag where it belongs |
| Highlight.HighlightTerms | SnippetGenerator.cpp:100-133 | all of it together, for any non-empty terms; from a snippet without "<" the resulting string gives the snippet back when every tag in it is deleted |
| Highlight.EscapeHTML | SnippetGenerator.cpp:83-98 | the escaped text has no angle brackets and can be unescaped |
| Highlight.UntaggedRender | SnippetGenerator.cpp:128-132 | where the text has no "<", nothing but the inserted tags looks like one |
| Highlight.Present | SnippetGenerator.cpp:54-58 | escaping, then highlighting: without tags and unescaped, the result is the text |

## Left out

- Sockets, TLS, MySQL, curl, event loop hooks and the Python and JavaScript front ends: input, clocks and query results are parameters of the methods.
- Allocation failure: the models never run out of memory, except that a table the allocator must refuse is refused.
- Buffer capacity: whether redisReaderFeed drops an oversized empty buffer is a free choice of the caller, and sdsrange is taking a slice.
- Widths: a reply line longer than an int, element counts above 2^31 and indices of hash tables above 2^31 buckets do not occur; 64-bit values themselves are modelled.
- strtod, and the score of the ranking: which texts are finite numbers is a parameter, floating point is not modelled.
- Custom reply functions and privdata destructors of the reader.
- Printf-style command formatting; only argument vectors are printed.
- dictGenHashFunction: the table is proved for every hash function.
- Fairness of the crawl, Redis errors, the rate limiter: steps of a worker that blocks or fails do not happen, and that a crawl comes to rest is not claimed.
- Foster parenting, parse flags and errors of the HTML parser; the insertion modes appear as arbitrary sequences of events, and the head element is not opened a second time.
- The text buffer: text is inserted when it comes, where the source collects characters and inserts them before the next element is inserted or popped.
- The document node: the root element has no parent here.
- The sets of special and scope-limiting tags are parameters of the parser; the theorems hold for all sets in which no formatting element is special.
- AsyncContext.AsyncContext.Send: takes the arguments of the command (that its bytes yield them is `Command.Arguments`); the linked callback lists are sequences and the two dictionaries are maps; that the hash table refines a map is proved separately.
- AsyncContext.Run: order and completeness are claimed while MONITOR was not used, since its callback is queued again after every reply.
- AsyncContext.AsyncContext.HandleConnect: a failed connection always has an error set, and failures of TCP options are not distinguished.
- Parser.GumboParser.PopCurrentNode: when the new current node is off the path, the path has to be chosen anew from there.
- HashTable.Dict.Walk: the chain walk that dictFind, dictDelete and _dictKeyIndex each write out is one method here.
- Chains.PushFront: hash entries are indices into one sequence, so freeing an entry is forgetting its index.
- DocumentStore.DocumentStore.GetHeader: for rows that do not exist nothing is claimed about the cached header.
- SearchIndex.Indexer.SaveIndex: rows of an earlier build that no posting overwrites stay, as in the source; `SearchIndex.Search` starts from an empty table.
- SearchIndex.Search: the MySQL column length and collation do not matter for the tokens.
- Utf8Stream.Utf8Iterator.ReadChar: the list of decoding errors is not recorded.
- Utf8.EncodeWellFormed: numbers of 2^21 and more, which no caller passes, are not encoded.
- sdscatfmt, resolve_url, the frameset branch, superseded workers and the other utilities.
