# Verification of the routing service gateway

This project models the parts of the gateway whose correctness is not visible in any single function,
and proves what they keep over whole inputs and whole runs. It has five groups of modules.

**JSON parser** (`Json*.dfy`). The parser runs one character machine twice over the text: the first
pass counts and chains nodes, the second pops the same nodes, allocates blocks of exactly the counted
sizes and fills them. Both passes are proved against a recursive grammar (`JsonGrammar`), which says
for every position which value the text holds and where it ends. `JsonMachine` is one step of the
machine on an arena of nodes, with its invariant and termination measure; `JsonFirstPass` and
`JsonSecondPass` are the two refinements; `JsonSizing` puts the passes side by side; `JsonParser` is
the same machine as a class whose fields are updated in place; `JsonFree` is the stackless release of
a tree; `JsonSyntax` writes down which texts say which values, without any reading, and proves the
grammar exact for them; `JsonUnicode` is about `\u` escapes. The text is a sequence of bytes followed by
a NUL.

**Receive queue** (`ReceiveQueueSpec.dfy`, `ReceiveQueue.dfy`). The class is the queue with its ring of
slots or its growing list, its loan flag and its counters; every method is tied to a specification
that keeps the history of each message, and the laws are proved over all runs of that specification.

**MQTT client** (`ClientHandshake.dfy`, `HandshakeSuccess.dfy`, `SubscriptionList.dfy`, `ClientSubscriptions.dfy`,
`TopicFilter.dfy`, `WriteAccounting.dfy`, `WriteVerdicts.dfy`, `WriteRaces.dfy`, `Publication.dfy`). Connecting
and writing are state machines over the steps of any number of threads, the broker's replies and timeouts; a
step that is not enabled changes nothing, so every list of actions is a run. `WriteVerdicts` records whose
verdict each wait returns, and `WriteRaces` splits each counter update into its load and its store. The list
of subscriptions with its cached parameters, the delivery of messages and the publication are classes.

**Data conversions** (`ArrayLists.dfy`, `ArrayReading.dfy`, `ArrayConverter.dfy`, `ArrayWriting.dfy`,
`LineText.dfy`, `LineValues.dfy`, `LineReading.dfy`, `LineExactness.dfy`, `LineConversion.dfy`,
`StringSplit.dfy`). Arrays become nested lists by an odometer with a stack of contexts and are written back
by a recursive walk; sample lines are trimmed, checked and tokenised in a character buffer.

**Shared** (`Wrappers.dfy`, `Words.dfy`): optional results and unsigned 32-bit arithmetic.

## Where the code differs from its intent

Each of these is proved of the code as it is, with the exact condition under which it does what is meant.

- A full ring reads as empty, and then stays full: the read guard compares the cursor with `next` only
  (plugins/adapters/mqtt/src/mqtt/Message.c:797).
- A partial read of the unbounded queue loses the unread messages: the test before the move of the
  references never holds (plugins/adapters/mqtt/src/mqtt/Message.c:1068).
- A failed connect leaves the client in CONNECTING; the header says DISCONNECTED
  (plugins/adapters/mqtt/include/rti/rtiadapt_mqtt_client.h:454-456).
- A topic filter that ends in `+` matches a topic with enough levels only if its last level is empty, and a topic
  that is used up inside the filter does match (plugins/adapters/mqtt/src/mqtt/Infrastructure.c:388-392 and 415). A
  `#` before the last level stands for one level. There is no rule for topics that start with `$`. An empty topic level
  is rejected at a `#` and refused at a `+`, unless it is the last one, which any filter left over accepts.
- One failed QoS 2 write is counted twice when another is pending (plugins/adapters/mqtt/src/mqtt/Publication.c:261-321).
- The combination of a surrogate pair uses a bitwise OR where a sum is needed (plugins/processors/fwd/src/json.c:331).
- Reading an array gives its nested lists if and only if every dimension from the third on is 1: the test for a new
  list looks at one index further in only (plugins/processors/pyprocessor/src/PyDynamicData.cxx:273-278). A 1x2x2
  array raises an error or comes out too deep.
- Writing nested lists back sets the right ids if and only if every dimension but the last two is 1: the offsets of
  outer lists are dropped (plugins/processors/pyprocessor/src/PyDynamicData.cxx:731). A 2x1x1 array is read right and
  written back wrong. So an array comes back, as nested lists of its own depth, if and only if it has at most two
  dimensions, or three with the outer and the inner one 1, or a single element.
- Assigning an octet always ends in an error (plugins/adapters/file/src/LineConversion.c:348-352).
- A line keeps a string, whatever the sample read into holds, if and only if the string is not empty and has no line
  end, delimiter, outer space or outer quote. Samples are used again (plugins/adapters/file/src/FileAdapter.c:200 and
  628), so a field that the line does not name can be right by chance.
- The bytes of the entries of a JSON object are computed in an int, so the block has the right size if and only if the
  object has at most 89,478,485 members (plugins/processors/fwd/src/json.c:106 and 134).
- The counters of a publication are updated without a lock, so they balance if and only if overlapping updates have
  overwritten nothing in sum (plugins/adapters/mqtt/src/mqtt/Publication.c:484-501 and 248-316).
- A wait for a write that times out leaves its reply to the next wait. The next write is sure to return its own verdict
  if and only if no reply is outstanding, the condition is not triggered and the count of pending messages is not at its
  maximum (plugins/adapters/mqtt/src/mqtt/Client.c:410-481).
- An error state lets a second handshake begin beside one if and only if one is in flight when it is entered
  (plugins/adapters/mqtt/src/mqtt/Client.c:766-775 and 1107-1140).
- A lost connection is found in one critical section and DISCONNECTED set in another
  (plugins/adapters/mqtt/src/mqtt/Client.c:666-679). A second handshake can begin beside one if and only if one is in
  flight at the set, which takes a disconnect called between the two.
- Splitting an empty string fails, exactly then, and leaves the sequence as it was: a Boolean is compared with the
  return code for success (plugins/adapters/mqtt/src/adapter/Properties.c:181).
- A copying read into a sequence that is still on loan overwrites the lent messages, and giving the sequence back then
  deletes as many as were copied (plugins/adapters/mqtt/src/mqtt/Message.c:740-772 and 1199-1225).

## Model

| member | source | states |
|---|---|---|
| JsonMachine.StepGood | plugins/processors/fwd/src/json.c:273-901 | every iteration of the character loop, in either pass, keeps the node arena well linked and either ends the pass or makes progress: the cursor goes forward, or stays with a smaller phase, although re-processing steps it back; pass 1 never follows a missing node |
| JsonMachine.FinishGood | plugins/processors/fwd/src/json.c:854-900 | completing a value keeps the arena valid; a parent at its length limit ends the pass |
| JsonMachine.NumberStepGood | plugins/processors/fwd/src/json.c:733-841 | the digit, sign, fraction, exponent and end-of-number branches keep the invariant and make progress, also when the character after a number is re-processed |
| JsonText.TimesPow10Is | plugins/processors/fwd/src/json.c:828-829 | moving the decimal point is multiplication by that power of ten, of either sign |
| JsonText.PlusFractionIs | plugins/processors/fwd/src/json.c:802 | the fraction digits are added as their number divided by the power of ten of their count |
| JsonTransitions.RunStep | plugins/processors/fwd/src/json.c:273-901 | running a pass is taking one step and running on, so runs can be reasoned about step by step |
| JsonTransitions.ReadEscapeIsEscape | plugins/processors/fwd/src/json.c:287-380 | the length checks made before the look-ahead reads of an escape never reject what the NUL after the text would accept |
| JsonTransitions.MatchesIsLiteral | plugins/processors/fwd/src/json.c:594-637 | the character-by-character comparison of `true`, `false` and `null` recognises exactly that word |
| JsonTransitions.SkipRun | plugins/processors/fwd/src/json.c:194-196 | runs of white space are skipped without any other effect wherever a value, a comma or the end is looked for |
| JsonTransitions.WordStep | plugins/processors/fwd/src/json.c:594-637 | the three words are read in one step in either pass, and anything else that starts like them rejects the text |
| JsonFirstPass.StringRun | plugins/processors/fwd/src/json.c:277-432 | in pass 1, from inside a string the loop reaches the closing quote having counted exactly the bytes the grammar says the string has, or rejects |
| JsonFirstPass.NumberRun | plugins/processors/fwd/src/json.c:664-680 | in pass 1 the digit-by-digit automaton ends exactly where the recursive number token ends and leaves its value, with sign, fraction and exponent, or rejects where there is no number |
| JsonFirstPass.ValueRun | plugins/processors/fwd/src/json.c:513-901 | in pass 1, from any position where a value is sought, the loop consumes exactly the value of the grammar and appends its sized nodes, or rejects |
| JsonFirstPass.FirstPass | plugins/processors/fwd/src/json.c:261-904 | pass 1 accepts exactly the texts of the recursive grammar (sections 2 to 7 of RFC 8259, and what the code tolerates besides: a byte order mark, one trailing comma, a lone minus read as 0, unknown escapes taken literally, raw control characters), and leaves the node counts of that value, chained through `next_alloc` |
| JsonSyntax.TextExactly | plugins/processors/fwd/src/json.c:261-904 | a text is read as a value if and only if it is the spelling of a concrete syntax tree that stands for the value, with white space, digits from `0123456789` and their place values, hexadecimal digits of either case, escapes, nesting, sizes up to 4,294,967,287, and the tolerated forms, all written down independently of any reading |
| JsonSyntax.NumeralRead | plugins/processors/fwd/src/json.c:733-841 | a sign, whole digits, fraction digits and exponent digits are read as the number their places give |
| JsonSyntax.IntegerRead | plugins/processors/fwd/src/json.c:733-766 | the decimal form of any whole number, with its minus sign, is read as that number |
| JsonSyntax.NumberExamples | plugins/processors/fwd/src/json.c:733-841 | `12`, `-90`, `-2.5e1` and `3E-1` are 12, -90, -25 and 0.3 |
| JsonSyntax.EscapeRead | plugins/processors/fwd/src/json.c:289-380 | each escape is read as the bytes it stands for: five control characters, a coded unit, a pair of units, any other character itself |
| JsonSyntax.EscapeExamples | plugins/processors/fwd/src/json.c:291-296 | the five control escapes, the quote and the backslash, as bytes |
| JsonSyntax.CodedExamples | plugins/processors/fwd/src/json.c:47-61 | U+00E9 with digits of either case is stored as C3 A9 |
| JsonFirstPass.RejectionKeepsChain | plugins/processors/fwd/src/json.c:933-941 | a pass that rejects leaves every node made so far on the `next_alloc` chain |
| JsonSecondPass.SkipsNumber | plugins/processors/fwd/src/json.c:646-662 | the bulk skip of pass 2 stops at the first character that cannot occur in a number |
| JsonSecondPass.NumberTokenChars | plugins/processors/fwd/src/json.c:733-841 | every character the digit-by-digit automaton takes is one the bulk skip takes, so both passes end a number at the same place |
| JsonSecondPass.StringRun | plugins/processors/fwd/src/json.c:277-432 | in pass 2 the bytes of a string go into its block from the current offset on and nothing else changes, when they fit the block |
| JsonSecondPass.ValueRun | plugins/processors/fwd/src/json.c:513-901 | in pass 2, over nodes sized for a value, the loop consumes that value without any rejection and fills its blocks, popping its nodes in order; unless some object in it has more entries than fit, which ends the pass there |
| JsonSecondPass.SecondPass | plugins/processors/fwd/src/json.c:261-904 | over the counts left by pass 1, pass 2 accepts and leaves every block of every node filled with the value, and `alloc` at the end of the chain, if and only if every object has at most 89,478,485 members; otherwise it asks for a block of a wrong size |
| JsonSizing.FilledIsFull | plugins/processors/fwd/src/json.c:117-164 | a filled block has no unset pointer, entry or byte: strings end in their NUL, name regions hold the sum of name lengths plus one, names are disjoint and in order |
| JsonSizing.BuiltAsSized | plugins/processors/fwd/src/json.c:117-164 | node by node, kind, parent, length and name bytes of pass 2 equal the counts of pass 1, and each block is exactly full |
| JsonSizing.RequestIsExact | plugins/processors/fwd/src/json.c:117-164 | the bytes requested for a block, with those of the entries computed in an int, are the bytes of the block of the counts if and only if 24 times the length of an object is at most INT_MAX |
| JsonSizing.AsIntReduces | plugins/processors/fwd/src/json.c:134 | the product kept in an int is the product less a multiple of 2^32 |
| JsonSizing.RequestExamples | plugins/processors/fwd/src/json.c:134 | one member more than 89,478,485 makes the product -2,147,483,632, and 178,956,971 members make it 8 bytes |
| JsonSizing.Lockstep | plugins/processors/fwd/src/json.c:102-192 | from states in step before a value whose objects fit, both passes reach states in step after it: same position, same flags but for the number flags, and the k-th node popped is the k-th node made |
| JsonSizing.PassesAgree | plugins/processors/fwd/src/json.c:261-904 | pass 2 accepts a text that pass 1 accepted if and only if every object has at most 89,478,485 members, and never rejects it; accepted, every block is filled exactly |
| JsonLayout.BuiltUnique | plugins/processors/fwd/src/json.c:117-164 | the filled arena determines its value: no two different values can be built at the same place |
| JsonParser.Parser.NewValue | plugins/processors/fwd/src/json.c:102-192 | the in-place `new_value` takes or makes a node as specified, in either pass |
| JsonParser.Parser.Step | plugins/processors/fwd/src/json.c:273-901 | one iteration over the parser fields is one step of the specified machine |
| JsonParser.Parser.RunPass | plugins/processors/fwd/src/json.c:273-901 | the loop over the parser fields ends, with the outcome of the specified run |
| JsonParser.Parser.Parse | plugins/processors/fwd/src/json.c:261-947 | the whole parser accepts exactly the texts of the grammar in which every object has at most 89,478,485 members, and then its arena holds exactly their value; it rejects exactly the texts outside the grammar, and frees every node made so far, each once, in order |
| JsonParser.Parser.FreeChain | plugins/processors/fwd/src/json.c:933-941 | the walk along `next_alloc` from the root visits every node of a rejected text exactly once |
| JsonFree.WalkValue | plugins/processors/fwd/src/json.c:964-1002 | the stackless walk, using only parent links and lengths it counts down, returns from a value to its parent having released exactly that value, at any depth |
| JsonFree.TraceReleases | plugins/processors/fwd/src/json.c:964-1002 | each node and each block of a value is released exactly once, and nothing outside it |
| JsonFree.TraceSafe | plugins/processors/fwd/src/json.c:964-1002 | no node is read after it was released |
| JsonFree.WalkReleasesAll | plugins/processors/fwd/src/json.c:955-1003 | on the tree of any value the walk ends, releases every allocation exactly once and reads nothing released |
| JsonFree.WalkEnds | plugins/processors/fwd/src/json.c:964-1002 | the walk stops at the null parent of the root |
| JsonFree.Heap.FreeValue | plugins/processors/fwd/src/json.c:955-1003 | the loop that counts lengths down in place performs exactly the specified walk |
| JsonFree.Heap.FreeTree | plugins/processors/fwd/src/json.c:955-1003 | freeing a parsed tree in place releases every allocation once and touches none after its release |
| JsonFree.ParseAndFree | plugins/processors/fwd/src/json.c:261-1003 | a text is parsed and its tree freed: everything allocated for it is released once, and nothing is read after its release |
| JsonUnicode.EncodesUtf8 | plugins/processors/fwd/src/json.c:334-371 | the stored bytes are the UTF-8 form (section 3 of RFC 3629) of the code point, and the only bytes that decode to it |
| JsonUnicode.PlainEscape | plugins/processors/fwd/src/json.c:298-371 | every escape outside the surrogates stores the UTF-8 form of its code point |
| JsonUnicode.CombinesPair | plugins/processors/fwd/src/json.c:314-332 | the OR adds 0x10000 exactly when bit 6 of the high half is clear |
| JsonUnicode.LowBitsCount | plugins/processors/fwd/src/json.c:331 | of two escaped units, whatever they are, only the low ten bits count |
| JsonUnicode.PairEscape | plugins/processors/fwd/src/json.c:298-371 | an escaped surrogate pair is stored as the UTF-8 form of its code point if and only if bit 6 of the high half is clear; otherwise as the code point minus 0x10000 |
| JsonUnicode.PairExamples | plugins/processors/fwd/src/json.c:331 | U+10000 comes out right and U+20000 comes out as U+10000 |
| JsonUnicode.OrBit16IsBitwise | plugins/processors/fwd/src/json.c:331 | the arithmetic used for the OR with 0x10000 is that bit operation |
| JsonUnicode.IsSurrogateIsBitwise | plugins/processors/fwd/src/json.c:314 | the range test used for surrogates is the mask test |
| JsonUnicode.MarksAreBitwise | plugins/processors/fwd/src/json.c:345-370 | the sums used for the marks of UTF-8 bytes are the ORs |
| ReceiveQueueSpec.RingConserves | plugins/adapters/mqtt/src/mqtt/Message.c:476-720 | in every run of a ring: arrivals are the deliveries, then the drops, then what is held, in order; each message is in exactly one of queue, loan, released and dropped; received = unread + read + lost modulo 2^32 |
| ReceiveQueueSpec.FullForever | plugins/adapters/mqtt/src/mqtt/Message.c:796-863 | once a ring is full it stays full under every later receive, read and return, and nothing is delivered any more |
| ReceiveQueueSpec.NextReadDelivers | plugins/adapters/mqtt/src/mqtt/Message.c:796-863 | after any run of a ring the next read delivers the oldest messages it asked for, or all if there are fewer, if and only if the ring is not full; from a full ring it gets nothing |
| ReceiveQueueSpec.NextLoanDelivers | plugins/adapters/mqtt/src/mqtt/Message.c:776-832 | after any run of a ring with nothing on loan, the next read without a buffer lends everything held if and only if the ring is not full; during a loan it changes nothing |
| ReceiveQueueSpec.RingStepKeeps | plugins/adapters/mqtt/src/mqtt/Message.c:476-720 | each operation keeps the ring invariant, and fullness |
| ReceiveQueueSpec.UnboundedConserves | plugins/adapters/mqtt/src/mqtt/Message.c:538-609 | in every run of the unbounded queue whose reads drain it nothing is dropped, deliveries are a prefix of the arrivals, each message is in one place and the counters balance |
| ReceiveQueueSpec.KeepsUnread | plugins/adapters/mqtt/src/mqtt/Message.c:1068-1083 | as the test before the move of references never holds, a read of the unbounded queue keeps the unread suffix if and only if it takes nothing or everything |
| ReceiveQueueSpec.PartialReadLoses | plugins/adapters/mqtt/src/mqtt/Message.c:1068-1083 | after reading one of two messages the queue holds one null reference |
| ReceiveQueueSpec.CopyOverLoses | plugins/adapters/mqtt/src/mqtt/Message.c:722-863 | a copy over a loan that is then given back deletes the copies twice and the lent messages never |
| ReceiveQueue.WindowMoves | plugins/adapters/mqtt/src/mqtt/Message.c:860-863 | taking out the n oldest messages and moving the head by n leaves the cyclic window of the others, with `next` where it was |
| ReceiveQueue.Advance | plugins/adapters/mqtt/src/mqtt/Message.c:502-512 | the modulo step around the ring is one conditional subtraction |
| ReceiveQueue.MessageReceiveQueue.ReceiveCircular | plugins/adapters/mqtt/src/mqtt/Message.c:476-536 | a message goes behind the window; on a full ring the oldest is replaced and returned; head = next_unread, next = head + size and the non-null slots stay that window |
| ReceiveQueue.MessageReceiveQueue.Receive | plugins/adapters/mqtt/src/mqtt/Message.c:611-720 | receiving, in either mode, changes messages and counters as the queue specification says; lost if and only if the ring was full |
| ReceiveQueue.MessageReceiveQueue.TakeCircular | plugins/adapters/mqtt/src/mqtt/Message.c:796-832 | the cursor loop moves out exactly the oldest messages owed by the read, in order, and clears their slots |
| ReceiveQueue.MessageReceiveQueue.TakeUnbounded | plugins/adapters/mqtt/src/mqtt/Message.c:1002-1039 | the first n messages are taken in order and their references set to null |
| ReceiveQueue.MessageReceiveQueue.Read | plugins/adapters/mqtt/src/mqtt/Message.c:1127-1172 | a read of at most `max` into a sequence with room for them is accepted, and an unlimited one into an empty sequence when nothing is on loan, and no other; it gets the oldest messages, as many as asked for or all there are, but none from a full ring, and is then the read of the specified runs; a copy into a sequence still on loan replaces the lent messages in place, and a partial read of the unbounded queue breaks it |
| ReceiveQueue.MessageReceiveQueue.ReturnLoan | plugins/adapters/mqtt/src/mqtt/Message.c:1174-1240 | each message of the returned sequence is released once, reads are enabled again; without a loan it succeeds and changes nothing; a sequence not on loan is refused |
| ClientHandshake.StepKeeps | plugins/adapters/mqtt/src/mqtt/Client.c:1101-1263 | every step of any thread, every reply, timeout, check for a lost connection and change of the cached parameters keeps the protocol invariant, and so do an error and the second half of a lost connection when nothing is under way |
| ClientHandshake.SubmitKeeps | plugins/adapters/mqtt/src/mqtt/Client.c:2093-2147 | handing a request to the library while every condition is clear keeps the invariant: from then on exactly its own reply is awaited, so the wait cannot take a stale result |
| ClientHandshake.WakeKeeps | plugins/adapters/mqtt/src/mqtt/Client.c:410-481 | taking a result keeps the invariant: a handshake goes on only with its own OK reply in the log |
| ClientHandshake.ReplyKeeps | plugins/adapters/mqtt/src/mqtt/Client.c:204-240 | a reply keeps the invariant: it belongs to the request the handshake in flight waits for, or finds the client stuck |
| ClientHandshake.OneHandshake | plugins/adapters/mqtt/src/mqtt/Client.c:1101-1263 | in every interleaving of connects and disconnects in which an error, or the second half of a lost connection, strikes only while no handshake is in flight, at most one handshake is in flight; replies of earlier ones may be outstanding |
| ClientHandshake.ExclusionExactly | plugins/adapters/mqtt/src/mqtt/Client.c:653-777 | after an error, or the second half of a lost connection, in any state so reached: every continuation without another one has at most one handshake in flight if and only if none was in flight when it struck |
| ClientHandshake.ConnectedOnlyAfterHandshake | plugins/adapters/mqtt/src/mqtt/Client.c:1133-1171 | in every interleaving in which errors and second halves of lost connections strike only a settled client, CONNECTED is entered only at the end of one handshake: sent, OK reply, snapshot of the parameters cached at that moment, and their submission with OK reply unless there are none; likewise DISCONNECTED; a client at rest is in the state its last handshake, lost connection or error made it |
| HandshakeSuccess.ConnectSucceeds | plugins/adapters/mqtt/src/mqtt/Client.c:1101-1180 | from every state at rest in DISCONNECTED or ERROR, the connect of any idle thread whose submissions are accepted and answered with OK returns OK and leaves CONNECTED, with the complete handshake for whatever parameters are cached, and changes nothing else |
| HandshakeSuccess.DisconnectSucceeds | plugins/adapters/mqtt/src/mqtt/Client.c:1182-1262 | likewise a disconnect from CONNECTED or ERROR, with or without cancelling the subscriptions first |
| HandshakeSuccess.ReconnectsAfterAnyRun | plugins/adapters/mqtt/src/mqtt/Client.c:1101-1262 | so after every calm run that is at rest, the next undisturbed connect or disconnect succeeds |
| HandshakeSuccess.AnsweredAtOnce | plugins/adapters/mqtt/src/mqtt/Client.c:1114-1131 | connect while CONNECTED and disconnect while DISCONNECTED return OK, calls during a handshake an error, and none of them changes anything else |
| ClientHandshake.FailureSticks | plugins/adapters/mqtt/src/mqtt/Client.c:1144-1178 | however a handshake fails, the client stays in CONNECTING or DISCONNECTING with nobody working on it |
| ClientHandshake.StuckForever | plugins/adapters/mqtt/src/mqtt/Client.c:1118-1131 | from then on every later connect and disconnect fails, as long as no error and no second half of a lost connection strikes |
| ClientHandshake.StrikeFrees | plugins/adapters/mqtt/src/mqtt/Client.c:1107-1131 | one that strikes frees a stuck client: the next connect begins |
| ClientHandshake.RefusedConnectStaysConnecting | plugins/adapters/mqtt/src/mqtt/Client.c:1144-1155 | a connect refused by the broker returns an error and leaves CONNECTING |
| ClientHandshake.ErrorBreaksExclusion | plugins/adapters/mqtt/src/mqtt/Client.c:766-775 | an error while any thread is inside a handshake, at any step of it, lets any idle thread begin another beside it |
| ClientHandshake.StaleReplyTaken | plugins/adapters/mqtt/src/mqtt/Client.c:410-481 | an error frees a stuck client, whose next connect may take the late reply to the one before |
| ClientHandshake.LostUndisturbed | plugins/adapters/mqtt/src/mqtt/Client.c:653-682 | the connection is found lost while CONNECTED: if no disconnect is called before DISCONNECTED is set, the set strikes a client with nothing in flight, so exclusion and the log results go on to hold |
| ClientHandshake.NoneLosesUnchecked | plugins/adapters/mqtt/src/mqtt/Client.c:666-679 | the state is set only by a handler that has found the client connected |
| ClientHandshake.LostExactly | plugins/adapters/mqtt/src/mqtt/Client.c:653-682 | with any calls between the check and the set, at most one handshake is in flight from then on if and only if none is in flight at the set |
| ClientHandshake.LostBetween | plugins/adapters/mqtt/src/mqtt/Client.c:653-693 | a disconnect called between the check and the set: DISCONNECTING is overwritten, and a connect begins beside it |
| SubscriptionList.CachedAgrees | plugins/adapters/mqtt/src/mqtt/Client.c:517-576 | after every critical section of every interleaving of subscribes and unsubscribes the cached parameters are the in-order concatenation over the listed subscriptions, subscribed ones contributing exactly their filters and ones being removed nothing |
| SubscriptionList.EmptyLeaves | plugins/adapters/mqtt/src/mqtt/Client.c:2239-2302 | removing a subscription without parameters keeps the cached parameters right |
| SubscriptionList.StepKeeps | plugins/adapters/mqtt/src/mqtt/Client.c:2206-2302 | each critical section keeps that agreement |
| SubscriptionList.SubscribeThenUnsubscribe | plugins/adapters/mqtt/src/mqtt/Client.c:517-647 | in any reached state a new subscription puts its parameters after the cached ones; unsubscribing it restores the list and the cached parameters |
| ClientSubscriptions.Client.CacheAllParams | plugins/adapters/mqtt/src/mqtt/Client.c:1903-1964 | the nested copy loops leave the concatenation of all listed parameters |
| ClientSubscriptions.Subscription.AppendParams | plugins/adapters/mqtt/src/mqtt/Client.c:1829-1900 | a subscription gets one parameter per topic filter, with its maximum QoS, after those it has |
| ClientSubscriptions.Client.AddSubscription | plugins/adapters/mqtt/src/mqtt/Client.c:2206-2237 | the subscription is appended to the list; in its turn that is the step of the specified runs |
| ClientSubscriptions.Client.CreateRequests | plugins/adapters/mqtt/src/mqtt/Client.c:517-576 | own parameters added and the cached ones recomputed in one critical section; in its turn that is the step of the specified runs |
| ClientSubscriptions.Client.DeleteRequests | plugins/adapters/mqtt/src/mqtt/Client.c:603-647 | own parameters emptied and the cached ones recomputed in one critical section; in its turn that is the step of the specified runs |
| ClientSubscriptions.Client.RemoveSubscription | plugins/adapters/mqtt/src/mqtt/Client.c:2239-2302 | found exactly when listed; then the list is the old one without its first occurrence, in order; in its turn that is the step of the specified runs |
| ClientSubscriptions.Subscription.Match | plugins/adapters/mqtt/src/mqtt/Subscription.c:89-127 | the loop over the filters rejects the topic if and only if one does and those before it refuse it, and accepts it if and only if one does and those before it refuse it |
| ClientSubscriptions.VerdictExactly | plugins/adapters/mqtt/src/mqtt/Subscription.c:103-117 | the same of the specified verdict |
| ClientSubscriptions.VerdictIsAny | plugins/adapters/mqtt/src/mqtt/Subscription.c:103-117 | when no filter is rejected the verdict is whether some filter accepts, wherever it stands |
| ClientSubscriptions.Client.OnMessageArrived | plugins/adapters/mqtt/src/mqtt/Client.c:706-777 | the loop over the subscriptions gives the message to exactly those that accept its topic and have no rejecting one up to them; the client fails if and only if some subscription rejects the topic |
| ClientSubscriptions.DeliveredExactly | plugins/adapters/mqtt/src/mqtt/Client.c:706-777 | the same of the specified delivery |
| ClientSubscriptions.DeliveredExactlyOnce | plugins/adapters/mqtt/src/mqtt/Client.c:706-777 | when no filter is rejected each subscription with some accepting filter receives the message exactly once and no other receives it |
| TopicFilter.Match | plugins/adapters/mqtt/src/mqtt/Infrastructure.c:272-422 | the two-cursor loop with its flags accepts, refuses or rejects exactly as the recursive definition, including the topic running out first and a final plus stepping past the end |
| TopicFilter.LiteralLevel | plugins/adapters/mqtt/src/mqtt/Infrastructure.c:401-409 | in a literal level the cursors move together to the first difference |
| TopicFilter.VerdictByLevels | plugins/adapters/mqtt/src/mqtt/Infrastructure.c:272-422 | for valid filters and topics without empty levels the character matcher is a simple recursion over levels that rejects nothing |
| TopicFilter.VerdictOfLevels | plugins/adapters/mqtt/src/mqtt/Infrastructure.c:272-422 | for valid filters and any topic it is a recursion over levels with three verdicts: an empty level is rejected at a `#`, refused at a `+`, and at the end of the topic matches anything |
| TopicFilter.MatchesStandard | plugins/adapters/mqtt/src/mqtt/Infrastructure.c:272-422 | for filters `#` or ending in `/#` and topics with non-empty levels, no leading `$` and at least as many levels, the verdict is that of section 4.7 of MQTT 3.1.1 |
| TopicFilter.AgreesWithStandard | plugins/adapters/mqtt/src/mqtt/Infrastructure.c:388-415 | the special case of AgreesEverywhere for topics of any length without empty levels or a leading `$`: the verdict is that of section 4.7 if and only if the topic is neither used up inside the filter nor ends on a plus |
| TopicFilter.AgreesEverywhere | plugins/adapters/mqtt/src/mqtt/Infrastructure.c:272-422 | for all valid filters and all topics to which the rule for `$` does not apply, the verdict is that of section 4.7 if and only if no empty level meets a wildcard, the topic does not end in an empty level the standard would not match, and is not used up too early or on a plus |
| TopicFilter.DollarExactly | plugins/adapters/mqtt/src/mqtt/Infrastructure.c:299-340 | where the rule for `$` applies, which the matcher does not have, it agrees if and only if the filter is a lone plus, or the topic one level, or the filter starts with a plus and the rest of it, which meets no empty level at a `#`, matches the rest of the topic under the standard exactly when the matcher differs from the standard there |
| TopicFilter.RefusesExactly | plugins/adapters/mqtt/src/mqtt/Infrastructure.c:272-422 | for valid filters the matcher refuses a topic if and only if no empty level meets a `#` and either the standard does not match and no difference applies, or it matches and one does |
| TopicFilter.FinalPlusExactly | plugins/adapters/mqtt/src/mqtt/Infrastructure.c:388-392 | a valid filter that ends in a plus accepts a topic with at least as many levels if and only if it has exactly as many, the last one is empty and the others match |
| TopicFilter.FinalPlusNeverAccepts | plugins/adapters/mqtt/src/mqtt/Infrastructure.c:388-392 | so it refuses every topic with enough levels none of which is empty |
| TopicFilter.Examples | plugins/adapters/mqtt/src/mqtt/Infrastructure.c:272-422 | `a/+` does not match `a/b`, and matches `a/`; `abc` matches `ab`; a `#` inside a filter stands for one level; `#a` is rejected |
| ArrayConverter.Converter.BuildArray | plugins/processors/pyprocessor/src/PyDynamicData.cxx:253-335 | the loops over elements and dimensions, with lists and contexts updated in place, compute the specified conversion or stop at a Python error; the result is the array in row-major order if and only if every dimension from the third on is 1, and otherwise, without an error, has a list below the depth of the array |
| ArrayConverter.Converter.PushLists | plugins/processors/pyprocessor/src/PyDynamicData.cxx:271-313 | the lists begun before an element |
| ArrayConverter.Converter.PopLists | plugins/processors/pyprocessor/src/PyDynamicData.cxx:321-331 | the lists ended and the dimension indexes carried after an element |
| ArrayReading.VectorTree | plugins/processors/pyprocessor/src/PyDynamicData.cxx:253-335 | every one-dimensional array becomes the list of its elements in order, with no context left |
| ArrayReading.MatrixTree | plugins/processors/pyprocessor/src/PyDynamicData.cxx:253-335 | every two-dimensional array becomes its rows in row-major order, with no context left |
| ArrayReading.ListTestRightExactly | plugins/processors/pyprocessor/src/PyDynamicData.cxx:273-278 | the test for beginning a list is right at every position if and only if every dimension from the third on is 1 |
| ArrayReading.ReadsRightExactly | plugins/processors/pyprocessor/src/PyDynamicData.cxx:253-335 | for any number of dimensions, an array becomes its nested lists in row-major order if and only if every dimension from the third on is 1; otherwise Python raises an error or the value holds a path of lists longer than the array has dimensions |
| ArrayReading.ContextsNeverRunOut | plugins/processors/pyprocessor/src/PyDynamicData.cxx:321-331 | every level whose index has moved has its context, so the stack never runs out and the conversion fails only at a store outside a list |
| ArrayReading.ThreeDimensionsGoWrong | plugins/processors/pyprocessor/src/PyDynamicData.cxx:253-335 | the 1x1x2 array of 5 and 7 becomes [[[5, [7]]]] |
| ArrayWriting.ArrayData.WriteList | plugins/processors/pyprocessor/src/PyDynamicData.cxx:645-762 | the recursive walk over nested lists sets exactly the specified member ids |
| ArrayWriting.WritesExactly | plugins/processors/pyprocessor/src/PyDynamicData.cxx:645-762 | for nested lists of any shape, exactly the elements are set, each at its place in its own list after the length of that list times its own place within the list around it |
| ArrayWriting.WritesInOrder | plugins/processors/pyprocessor/src/PyDynamicData.cxx:645-762 | and each is set once, depth first |
| ArrayWriting.AppliedExactly | plugins/processors/pyprocessor/src/PyDynamicData.cxx:645-762 | an id holds what was last written to it, or what it held before |
| ArrayWriting.VectorRoundTrip | plugins/processors/pyprocessor/src/PyDynamicData.cxx:690-698 | a list is written back to the ids its elements came from |
| ArrayWriting.WritesStayInPlane | plugins/processors/pyprocessor/src/PyDynamicData.cxx:713-740 | as the offset of the outer lists is dropped, no id goes beyond the size of the last two dimensions |
| ArrayWriting.RoundTripExactly | plugins/processors/pyprocessor/src/PyDynamicData.cxx:713-740 | a row-major nested list is written back to the flat ids it came from if and only if all dimensions but the last two are 1, so for every matrix |
| ArrayWriting.ComesBackExactly | plugins/processors/pyprocessor/src/PyDynamicData.cxx:253-762 | an array of any number of dimensions is read as nested lists of its own depth, and these written back with every element at the id it came from, if and only if every dimension from the third on and every one before the last two is 1 |
| ArrayWriting.WrongShapeComesBack | plugins/processors/pyprocessor/src/PyDynamicData.cxx:253-762 | the too deep value of a 1x1x2 array is nevertheless written back right, so the shape is part of what comes back |
| WriteAccounting.ReplyKeepsTotal | plugins/adapters/mqtt/src/mqtt/Publication.c:236-321 | no reply, in any state, changes pending + ok + error modulo 2^32 |
| WriteAccounting.RunBalances | plugins/adapters/mqtt/src/mqtt/Publication.c:451-501 | in every run of any number of writing threads whose counter updates do not overlap, pending + ok + error is the number of accepted writes plus those being sent |
| WriteAccounting.RunCountsSent | plugins/adapters/mqtt/src/mqtt/Publication.c:484-495 | in every run, with timeouts, the writes taken are those counted as sent and those about to be |
| WriteRaces.RunAccounts | plugins/adapters/mqtt/src/mqtt/Publication.c:484-501 | with each update split into its load and its store, in every run of any threads the three counters, what is still to come and what stores overwrote add up to the writes |
| WriteRaces.BalancedExactly | plugins/adapters/mqtt/src/mqtt/Publication.c:236-321 | whenever no update is under way the counters balance if and only if the overwritten changes sum to 0 |
| WriteRaces.BalancedWithoutOverlap | plugins/adapters/mqtt/src/mqtt/Publication.c:236-321 | in every run in which no store is made after another store of the same counter since its load, nothing is lost and the counters balance |
| WriteRaces.OverlapLosesOne | plugins/adapters/mqtt/src/mqtt/Publication.c:485 | two writes that begin together count as one |
| WriteRaces.SettlesAlone | plugins/adapters/mqtt/src/mqtt/Publication.c:248-316 | a verdict whose two updates nobody disturbs is settled as in one step |
| WriteAccounting.CountsOnceExactlyWhen | plugins/adapters/mqtt/src/mqtt/Client.c:933-1030 | a reply through both handlers counts and notifies exactly one verdict if and only if QoS 2 is not involved, or a failure finds one message pending, or a success finds some |
| WriteAccounting.EachWriteOneVerdict | plugins/adapters/mqtt/src/mqtt/Client.c:410-481 | with one write at a time and no timeout, for every QoS, ok and error count exactly the broker's verdicts, callers return them in order even if the reply precedes the wait, and nothing stays pending |
| WriteVerdicts.WaitTakes | plugins/adapters/mqtt/src/mqtt/Client.c:410-481 | with the writes numbered and answered in order: in every run, with timeouts, in which a write begins only when nobody is inside a call, a completed wait takes the reply of the write as many before its own as replies are outstanding, so its own exactly when none is; it returns that verdict unless that reply was an OK that found no QoS 2 message pending |
| WriteVerdicts.OwnVerdictExactly | plugins/adapters/mqtt/src/mqtt/Client.c:410-481 | in a reached state with nobody inside a call, every continuation gives the next accepted write its own verdict if and only if no reply is outstanding, the condition is not triggered and fewer than 2^32 - 1 messages are pending |
| WriteVerdicts.LateVerdictReached | plugins/adapters/mqtt/src/mqtt/Client.c:410-481 | a run from the start: the first write times out, and its late failure is returned by the second, whose own reply is outstanding |
| WriteAccounting.LateVerdictTaken | plugins/adapters/mqtt/src/mqtt/Client.c:410-481 | after a timeout the late verdict is returned by the next write as its own |
| WriteAccounting.TwoOutstandingMiscount | plugins/adapters/mqtt/src/mqtt/Publication.c:261-321 | with two QoS 2 writes outstanding one failure is counted twice and the other success is reported as an error |
| Publication.Publication.OnWriteResult | plugins/adapters/mqtt/src/mqtt/Publication.c:236-280 | the acknowledgement handler settles QoS 0 and 1, and failures of QoS 2 |
| Publication.Publication.OnWriteDeliveryResult | plugins/adapters/mqtt/src/mqtt/Publication.c:282-321 | the delivery handler settles one pending QoS 2 message and refuses when there is none |
| Publication.Publication.HandleDelivery | plugins/adapters/mqtt/src/mqtt/Client.c:933-980 | the caller is woken with an error when the delivery handler refuses |
| Publication.Publication.HandleReply | plugins/adapters/mqtt/src/mqtt/Client.c:982-1030 | a QoS 2 reply passes through both handlers, any other only through the first |
| Publication.Publication.WaitForRequest | plugins/adapters/mqtt/src/mqtt/Client.c:410-481 | a triggered wait clears the condition and takes the stored result |
| Publication.Publication.Write | plugins/adapters/mqtt/src/mqtt/Publication.c:451-501 | a whole write: an invalid topic changes nothing; a message the library refuses leaves the counters as they were; a reply settles the message once and is what the caller gets, if and only if QoS 2 is not involved, or a failure finds only this message pending, or a success some; without a reply the caller gets what was left triggered, or a failure |
| LineText.RenderedIsValid | plugins/adapters/file/src/LineConversion.c:106-148 | what is written from good pairs passes the format check |
| LineText.ValidIsRendered | plugins/adapters/file/src/LineConversion.c:106-148 | a line passes the format check only if it is field=value pairs, each field non-empty, and splitting gives them back |
| LineText.TokensAreSplitExactly | plugins/adapters/file/src/LineConversion.c:150-179 | on a valid line strtok over both delimiters yields the same pairs as splitting on `,` and then on `=` if and only if no value is empty |
| LineText.SplitRendered | plugins/adapters/file/src/LineConversion.c:191-239 | splitting is the inverse of writing pairs |
| LineReading.TrimsExactly | plugins/adapters/file/src/LineConversion.c:247-260 | trimming takes off the blanks at both ends of a text and nothing else |
| LineReading.UnquotesExactly | plugins/adapters/file/src/LineConversion.c:164-171 | one quote is removed at each end, if it is there |
| LineReading.FgetsExactly | plugins/adapters/file/src/LineConversion.c:90-92 | what one fgets takes begins the file, has a line end only last, and ends with the line, the file or the buffer |
| LineReading.CTextExactly | plugins/adapters/file/src/LineConversion.c:90-96 | a C string ends before its first NUL |
| LineReading.NumbersWritten | plugins/adapters/file/src/LineConversion.c:428-560 | every integer kind is written as its decimal number |
| LineReading.NumberExamples | plugins/adapters/file/src/LineConversion.c:428-560 | 0, -120 and 34567 as written |
| LineReading.OthersWritten | plugins/adapters/file/src/LineConversion.c:428-604 | booleans, characters and strings are written as they are, and an unsupported kind not at all |
| LineValues.ParseRestores | plugins/adapters/file/src/LineConversion.c:301-356 | each kind but octet reads back the value it wrote, within its range |
| LineValues.AtoiOfNumber | plugins/adapters/file/src/LineConversion.c:296-312 | a number read from its decimal text is the number, of either sign |
| LineReading.AtoiReads | plugins/adapters/file/src/LineConversion.c:296-330 | the number is read from any text that begins with it, after blanks, a sign and zeros, whatever follows |
| LineReading.AtoiOfOther | plugins/adapters/file/src/LineConversion.c:296-330 | a text that begins with no number is read as 0 |
| LineReading.NumbersRead | plugins/adapters/file/src/LineConversion.c:296-352 | every integer kind reads any text as its number reduced to the width of the kind, and a boolean as whether the number is not 0 |
| LineReading.BooleansRead | plugins/adapters/file/src/LineConversion.c:331-342 | the four words of a boolean, every number, and `yes`, which is false |
| LineReading.TextsRead | plugins/adapters/file/src/LineConversion.c:343-356 | a string is read whole and a character is the first one, or NUL |
| LineReading.LineOutcomes | plugins/adapters/file/src/LineConversion.c:90-148 | a line is not sent if and only if it is blank, and one in no format is an error; neither changes the sample |
| LineReading.AssignedExactly | plugins/adapters/file/src/LineConversion.c:150-182 | assigning pairs succeeds if and only if none is wrong; each field holds what the last pair that sets it says, and no pair after a wrong one sets anything |
| LineReading.LineReadsExactly | plugins/adapters/file/src/LineConversion.c:90-182 | so for every valid line without empty values, whoever wrote it |
| LineValues.LineRoundTrip | plugins/adapters/file/src/LineConversion.c:70-239 | reading the line written for a sample restores every field, for one or more short, long, enum, unsigned (up to INT_MAX), boolean, char and string members with clean texts, whatever follows in the file and whatever the sample held before |
| LineExactness.RestoresExactly | plugins/adapters/file/src/LineConversion.c:70-239 | into a sample that does not hold its fields yet, the line written for a sample restores every field, and gives a sample to send, if and only if every string and character in it is not empty and has no delimiter, line end, outer space or outer quote |
| LineExactness.RestoresFromEvery | plugins/adapters/file/src/LineConversion.c:70-239 | samples are used again: whatever the sample held before, the line restores it, if and only if every string and character is so |
| LineExactness.HeldFieldsHide | plugins/adapters/file/src/LineConversion.c:70-239 | a sample that holds an empty `a` and a `b` of `a,""=` is sent with both fields right from its own line, though that line names `a` twice and `b` never; into an empty sample the same line does not restore it |
| LineExactness.LineEndCuts | plugins/adapters/file/src/LineConversion.c:90-92 | a string with a line end inside is cut there, and the cut sample is sent |
| LineExactness.SentSetsNoOctet | plugins/adapters/file/src/LineConversion.c:348-352 | a line that is sent has set no octet: naming one anywhere in a line makes it an error |
| LineValues.OctetNeverSent | plugins/adapters/file/src/LineConversion.c:348-352 | assigning an octet stores its number modulo 256 and yet is an error |
| LineExactness.OctetNotRestored | plugins/adapters/file/src/LineConversion.c:70-239 | an octet is restored from the line of its sample only where the sample read into held that value already |
| LineConversion.LineReader.Trim | plugins/adapters/file/src/LineConversion.c:247-260 | the in-place trim leaves exactly the text without outer spaces and touches nothing outside it |
| LineConversion.LineReader.Validate | plugins/adapters/file/src/LineConversion.c:106-148 | the state loop accepts exactly the specified lines |
| LineConversion.LineReader.NextToken | plugins/adapters/file/src/LineConversion.c:150-179 | one strtok step: the next token, the rest, and nothing before it changed |
| LineConversion.LineReader.Unquote | plugins/adapters/file/src/LineConversion.c:164-171 | one outer quote is removed at each end |
| LineConversion.LineReader.Assign | plugins/adapters/file/src/LineConversion.c:264-424 | the field named is set by its kind, or an error is returned |
| LineConversion.LineReader.ReadSample | plugins/adapters/file/src/LineConversion.c:70-182 | reading in place does to the sample exactly what the line specification says, with its three outcomes |
| LineConversion.LineWriter.WriteMember | plugins/adapters/file/src/LineConversion.c:428-604 | name, equals sign and the text of the value by kind |
| LineConversion.LineWriter.WriteSample | plugins/adapters/file/src/LineConversion.c:191-239 | the appended text is the specified line, also when a member cannot be written |
| StringSplit.StringSeq.AddFrom | plugins/adapters/mqtt/src/adapter/Properties.c:161-237 | the nested loops append the pieces of the string; the call fails exactly when the string is empty, and then leaves the contents as they were |
| StringSplit.SplittingIsFaithful | plugins/adapters/mqtt/src/adapter/Properties.c:161-237 | for every non-empty string earlier contents are kept, the pieces hold no `;`, and joining them restores the string up to one final `;` |
| StringSplit.SplitRestores | plugins/adapters/mqtt/src/adapter/Properties.c:161-237 | splitting undoes joining |

## Left out

- JsonFirstPass.FirstPass: allocations succeed and `max_memory` is unset, as `json_parse` sets it; integers are unbounded where the code has 64 bits, and fractions and powers of ten are exact reals, so rounding and overflow of numbers are not modelled.
- JsonFirstPass.NumberRun: the same; number values are exact.
- JsonParser.Parser.Parse: comment mode, line and column tracking and the texts of error messages are not modelled; blocks are cells, not addresses; a request for an object block of a wrong size, which the allocator may refuse or grant too small, ends the model of the pass.
- JsonParser.Parser.NewValue: allocations succeed; the code overlays the link of a node and its name position in one union, and counts name bytes in the pointer to the entries, where these are separate fields here: a node's link and its count are read before the other use of their place begins.
- JsonFree.Heap.FreeValue: allocations are tokens for a node and its block; the allocator itself is not modelled.
- ReceiveQueue.MessageReceiveQueue.Read: copying and deleting of data elements succeed; the ring's slots are one sequence reassigned slot by slot, as the same field is a growing list without a capacity.
- ClientHandshake.ConnectedOnlyAfterHandshake: modelled on values, since the point is the interleaving of threads; failures of the condition variables are excluded; a timeout may happen at any time; subscribing does not check the connection although its documentation says so. Errors and second halves of lost connections strike only a settled client, as otherwise StaleReplyTaken refutes it.
- ClientHandshake.OneHandshake: errors and second halves of lost connections strike only while no handshake is in flight, which ExclusionExactly shows to be needed; the reconnection after a lost connection is a connect by some thread.
- ClientHandshake.StepKeeps: an error and the second half of a lost connection strike only a settled client.
- ClientHandshake.StuckForever: an error, or the second half of a lost connection, frees a stuck client, as StrikeFrees says, and may let it take a late reply.
- SubscriptionList.CachedAgrees: failing allocations inside a critical section are not modelled; the subscription lock makes each critical section one step.
- ClientSubscriptions.Client.OnMessageArrived: conversion of the payload to dynamic data and the receive by a queue succeed, and listeners are not called.
- WriteAccounting.RunBalances: each update of a counter is one step, so it speaks of runs whose updates do not overlap; WriteRaces covers those that do. The broker protocol below the library is not part of this model; the acknowledgement of any write is taken with the QoS of the last one, as the code does.
- WriteAccounting.EachWriteOneVerdict: no wait times out; WriteVerdicts says what a wait takes otherwise.
- WriteVerdicts.OwnVerdictExactly: one write at a time and replies in the order of the writes; that of several writers is what TwoOutstandingMiscount shows.
- TopicFilter.AgreesWithStandard: topics without empty levels and without a leading `$`; AgreesEverywhere and DollarExactly cover all others.
- LineExactness.RestoresFromEvery: the same values as RestoresExactly.
- Publication.Publication.Write: at most one reply arrives during the write, and no other thread writes.
- WriteRaces.RunAccounts: a handler reads the last QoS in one step with taking the reply.
- ArrayConverter.Converter.BuildArray: reference counts and element types are not modelled.
- ArrayConverter.Converter.PopLists: an empty context stack ends the conversion like a Python error; ContextsNeverRunOut proves that it never occurs.
- HandshakeSuccess.ConnectSucceeds: nothing else happens during the call; what may happen otherwise is what ClientHandshake is about.
- LineReading.NumbersRead: numbers fit an int, and float and double kinds are not part of this model.
- LineReading.LineReadsExactly: lines with empty values, whose tokens are not their pairs, are covered by LineText and LineExactness only.
- LineValues.LineRoundTrip: `atoi` is modelled on numbers that fit an int, and float and double members are not part of this model.
- LineExactness.RestoresExactly: the sample read into does not hold its fields yet; RestoresFromEvery covers every sample. Unsigned numbers above INT_MAX, float and double members are not part of this model, and strings hold no NUL.
- LineConversion.LineReader.Assign: float and double fields are not part of this model.
- LineConversion.LineReader.ReadSample: float and double fields are not part of this model, and numbers fit an int.
- LineConversion.LineWriter.WriteMember: float and double members are not part of this model.
- LineConversion.LineWriter.WriteSample: writing to the file succeeds.
- StringSplit.StringSeq.AddFrom: allocations succeed, and a sequence keeps its elements when its length is set to 0 and back.
- Paho, DDS and Python library internals are foreign calls: a request is a level-triggered flag with a result.
- Time normalisation, logging, SSL settings, plugin wiring, file handling, the shapes example and the forwarding table are input, output or table look-ups without interplay.
- Property and enumeration string tables and the reference lists of plugin and broker connection would only add easy members.
