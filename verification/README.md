# Verified model of the server's rules and protocols

Twelve self-contained pieces of the code base, each modelled in the form the source has and proved
against a specification that can be read without it.

| module | what it models |
|---|---|
| `Sums`, `Sequences`, `Bytes` | sums, distinct sequences, octets and big-endian numbers, shared by the others |
| `LootMix` | `AllocateMix`: largest-remainder apportionment with caps, in repeated rounds |
| `LootBudget` | `RollCount`, `PlanDungeon` and `Trim` |
| `ChunkedBody` | the chunked states of the HTTP client's read handler |
| `WebSocket` | frame headers out, frames in |
| `EtfTerm`, `EtfDecode`, `EtfRoundTrip`, `EtfDomain`, `EtfWire`, `EtfCodec` | the External Term Format: encoding, total decoder, round trip, its exact domain, every inbound form by its bytes, and the imperative builder and parser |
| `RequestQueue`, `RequestThread` | the request queue as a state machine over all interleavings, and the code of one request thread |
| `CameraModel` | cameras and view points: two kinds of objects that point at each other, changed by callbacks during iteration |
| `Conditions` | the recursive condition table and a meaning-preserving normal form |
| `CreatureGroups` | leadership and re-entrancy guards of creature groups |
| `VoiceDrain` | the voice courier's priority queue over wrapping sequence numbers |
| `InstanceLimiter` | instance entries per account and hour |
| `Permissions` | Discord permissions, computed in two ways |

How the source is represented:

- Objects that the source updates are classes, with the loops the source has; each method is tied to a
  function or a predicate about its old and new state, and the properties are proved about those.
- Protocol runs are sequences of states and steps (`RequestQueue`), of events (`InstanceLimiter`) or of
  rounds (`LootMix.Play`); theorems about them are inductions over all of them.
- Machine integers are unbounded except where the width matters: `NoWrapAround` for the loot rules, the
  hash, the deadlines and the sequence numbers modulo their width, `Stoi16`, the cuts of the term format.
- Permission masks are sets of bits 0 to 63. Chances and rolls are real numbers.
- Clocks, random rolls, responses, reads from the network and callbacks are parameters.

Where the code and what it promises differ, the code is modelled and the difference proved:

- The wire header buffer has ten bytes; `HeaderFits` says for which payloads that is enough.
- A masked data frame makes the frame parser ask again without consuming anything
  (`dep/dpp/wsclient.cpp:190-195`). A 64-bit length of 2^64 - 10 or more makes the end of the frame wrap around
  (`dep/dpp/wsclient.cpp:226-239`): everything buffered is delivered and at most nine bytes are erased, none at
  2^64 - 10. `NeverEndsIff` says on exactly which input the loop does not end, `SplitIndependentIff` on exactly
  which streams the cutting into reads makes no difference to the frames and to the bytes left, and
  `StuckFrameCut` shows one on which it does. How often an error is reported depends on the reads
  (`ReportedAgain`).
- Empty containers do not survive the term format (`RoundTripIff` and the three lemmas behind it).
- Validation does not bound the third and fourth reference of NOT (`ValidIsWellFoundedIff`,
  `SelfReferenceIsAccepted`, `SelfReferenceDiverges`), and dropping a NOT is safe only under `WithoutNotIff`.
- A removed object keeps viewers whose owner is not in the world (`EventRemovedFromWorld`, `StrandedViewer`);
  there are none as long as players reset their view before they leave (`RemoveFromWorld`,
  `src/game/Objects/Player.cpp:3080-3089`).
- Erasing a temporary leader directly leaves a group led by a stranger (`RemoveMember`, `StrangerLeads`).
  `Creature::LeaveCreatureGroup` avoids it (`Leave`); the calls in
  `src/scripts/dungeons/scholomance/boss_vectus.cpp` (lines 141, 267 and 268) do not look at who leads.
- A limit of zero instances, and two checks before two entries, are not held (`ZeroLimitIsNotKept`,
  `GrantsDoNotAddUp`); `LimitKeptIff` says exactly which entry keeps the limit.
- The comparison of voice payloads is not transitive on every set; `TransitiveIff` says on which it is, and
  `SerialIff` when it agrees with serial arithmetic.

## Model

| member | source | states |
|---|---|---|
| LootMix.AllocateMix | src/game/FunserverLootRules.h:248-308 | total at most `min(max(0, setMax - fixedTotal), room)`, exactly that when `upgraders <= members` in every class; in any case at least min(that, the room of the classes with members), and short of it only if no class with members has room left; no class beyond `upgraders - fixedDrops`; the result is the end of a complete play by the round rule, in at most as many rounds as pieces |
| LootMix.PlayRounds | src/game/FunserverLootRules.h:269-306 | the while loop is a legal play that stops only when nothing remains or no class is eligible |
| LootMix.PlayRound | src/game/FunserverLootRules.h:271-305 | one pass through the loop body is one largest-remainder round over the eligible classes, and `given` is what was added |
| LootMix.Tally | src/game/FunserverLootRules.h:250-262 | the counting loop yields the total of fixed drops, the total room and the members of the classes with room |
| LootMix.EligibleMembers | src/game/FunserverLootRules.h:271-274 | the members of the classes that still have an unmet upgrader |
| LootMix.DealWholeShares | src/game/FunserverLootRules.h:279-293 | the first inner loop gives every class its share rounded down and cut at its cap, and notes exactly the classes left open, with their remainders, in class order |
| LootMix.DealRemainders | src/game/FunserverLootRules.h:294-302 | the second inner loop, over the sorted claims, completes a largest-remainder round: `HamiltonStep` holds of what was given |
| LootMix.StableSortOrdered | src/game/FunserverLootRules.h:294-295 | the stable sort orders the claims by descending remainder and, among equals, by class position |
| LootMix.ClaimOrderIsHamilton | src/game/FunserverLootRules.h:296-302 | raising a prefix of the sorted claims that ends with the round or with the claims satisfies the declarative rule |
| LootMix.ClaimsExtend | src/game/FunserverLootRules.h:291-292 | the claims noted so far stay exactly the open classes when the next class is looked at |
| LootMix.WholeSharesFit | src/game/FunserverLootRules.h:287-290 | shares rounded down never exceed the pieces of the round, so the second loop starts within the round |
| LootMix.HamiltonStepUnique | src/game/FunserverLootRules.h:278-302 | the declarative round rule (whole shares, at most one more each, nobody passed over by a later claim) leaves no choice |
| LootMix.LargerDealIsNotLarger | src/game/FunserverLootRules.h:278-302 | two deals that both obey the round rule give out equally much |
| LootMix.RoundProgress | src/game/FunserverLootRules.h:303-305 | a round of at least one piece gives at least one and never more than it has, so the guard on an empty round never fires |
| LootMix.RoundWithinCaps | src/game/FunserverLootRules.h:284-300 | no class takes more than its remaining room in a round |
| LootMix.QuotaExhausts | src/game/FunserverLootRules.h:278-302 | when each eligible class has room for its share rounded up, one round gives out every piece |
| LootMix.RaisedHasRemainder | src/game/FunserverLootRules.h:291-300 | in that case only classes whose share has a fraction are rounded up |
| LootMix.GainAgainstShare | src/game/FunserverLootRules.h:287-300 | a class holds its exact share less its remainder, or one piece more |
| LootMix.QuotaRule | src/game/FunserverLootRules.h:278-302 | in that case every class gets the floor or the ceiling of pieces * members / eligibleMembers |
| LootMix.QuotaOfRun | src/game/FunserverLootRules.h:267-307 | the same of a whole allocation: one round, all pieces, every class within one piece of its exact share |
| LootMix.NoLongerThanRun | src/game/FunserverLootRules.h:269-306 | no legal play has more rounds than a complete one |
| LootMix.RunUnique | src/game/FunserverLootRules.h:269-306 | the rules fix the outcome: two complete plays are equal |
| LootMix.FinishedIsFull | src/game/FunserverLootRules.h:244-247 | with `upgraders <= members` an allocation that can go no further has reached the budget |
| LootMix.FinishedReaches | src/game/FunserverLootRules.h:263-306 | an allocation that can go no further has filled every class with members or given everything |
| LootMix.ShortWithoutMembers | src/game/FunserverLootRules.h:244-308 | one counted upgrader in a class without members: nothing is given |
| LootMix.NoWrapAround | src/game/FunserverLootRules.h:251-305 | if the three column totals fit 32 bits, so does every intermediate value, and every share fits 64 bits |
| LootMix.BudgetIs | src/game/FunserverLootRules.h:250-268 | the budget is the set maximum less the fixed drops, at least 0, cut at the total room, by the fields of the classes |
| LootMix.RoundInFigures | src/game/FunserverLootRules.h:269-306 | one round in figures: every class gets pieces * members / eligible members, rounded down and cut at its room, or one piece more; a class with room that got none more has the smaller remainder, or an equal one and the later place; pieces stay over only if every class with room above its share got one more |
| LootBudget.RollCount | src/game/FunserverLootRules.h:189-196 | the minimum plus one for each successful roll of the remaining slots; between the minimum and the maximum |
| LootBudget.SuccessesMonotone | src/game/FunserverLootRules.h:192-194 | rolls that succeed wherever others do never count fewer successes |
| LootBudget.PlanDungeon | src/game/FunserverLootRules.h:208-225 | the sure items and a roll below 0.33 for each remaining slot say how much is wanted; the boss table gives first and the pool what it cannot, each up to its size, although the loop breaks early |
| LootBudget.PlanUnique | src/game/FunserverLootRules.h:204-206 | the rule "own table first, then the pool up to boeMax" determines the plan |
| LootBudget.PlanBounds | src/game/FunserverLootRules.h:204-206 | every plan gives at least min(band.min, ownDistinct + boeMax), and at most band.max when min <= max |
| LootBudget.PlanMonotone | src/game/FunserverLootRules.h:213-223 | more successful rolls never give less, from either source |
| LootBudget.Cut | src/game/FunserverLootRules.h:329-336 | one cut leaves the total at the limit or above, the category at its floor if the total is still above, and never less than the floor |
| LootBudget.Trim | src/game/FunserverLootRules.h:327-341 | the result satisfies the declarative trim rule, and is the three cuts in figures: normal drops go first, then set pieces above the need, then extra drops of the boss table, each only for what is still over the limit |
| LootBudget.TrimUnique | src/game/FunserverLootRules.h:310-312 | the trim rule determines the result |
| LootBudget.TrimIdempotent | src/game/FunserverLootRules.h:327-341 | trimming a trimmed loot changes nothing |
| LootBudget.SuccessesCount | src/game/FunserverLootRules.h:192-194 | the successes are the rolls below the chance, counted |
| LootBudget.PlanInFigures | src/game/FunserverLootRules.h:208-225 | the plan written out: the boss table gives what is wanted up to its size, the pool the rest up to its own |
| ChunkedBody.FindCrlf | dep/dpp/httpsclient.cpp:235-238 | the position of the first CRLF, or the length when there is none |
| ChunkedBody.HexDigit | dep/dpp/httpsclient.cpp:241-241 | the digits the size line can hold, each below 16 |
| ChunkedBody.Stoi16 | dep/dpp/httpsclient.cpp:239-246 | a size line converts to a 32-bit value or fails as the caught exceptions do |
| ChunkedBody.ToRead | dep/dpp/httpsclient.cpp:205-208 | what is taken for the current chunk never exceeds what is buffered |
| ChunkedBody.StepDecreases | dep/dpp/httpsclient.cpp:131-269 | every pass that repeats lowers the rank, so the state loop of each call ends |
| ChunkedBody.StepMore | dep/dpp/httpsclient.cpp:132-268 | a pass over more input does the same, or resumes where the shorter input ran out, in every state |
| ChunkedBody.SettleSplit | dep/dpp/httpsclient.cpp:128-271 | handling what is there and then the next bytes equals handling both at once |
| ChunkedBody.SplitIndependent | dep/dpp/httpsclient.cpp:128-271 | from any unstopped client, any bytes cut into reads in any way leave the client that one read leaves |
| ChunkedBody.ReceiveAppend | dep/dpp/httpsclient.cpp:128-271 | two reads or one |
| ChunkedBody.EatChunk | dep/dpp/httpsclient.cpp:204-254 | one well-formed chunk is consumed whole and its data appended to the body |
| ChunkedBody.EatLast | dep/dpp/httpsclient.cpp:220-251 | the zero chunk and the final CRLF end in the done state with the body unchanged |
| ChunkedBody.DecodesEncoding | dep/dpp/httpsclient.cpp:204-254 | on the chunked encoding of any list of non-empty chunks (section 7.1 of RFC 9112) the client is done with their concatenation as body |
| ChunkedBody.AnySplitDecodes | dep/dpp/httpsclient.cpp:128-271 | the same for every cutting of the encoding into reads |
| ChunkedBody.NotDoneEarlier | dep/dpp/httpsclient.cpp:220-232 | while any part of the encoding is missing the client is neither done nor stopped |
| ChunkedBody.DoneHasCrlf | dep/dpp/httpsclient.cpp:222-226 | a client gets to the done state only on a CRLF, which stays in the buffer |
| ChunkedBody.HexIsLine | dep/dpp/httpsclient.cpp:237-241 | the shortest hexadecimal form of every size below 2^31 is a size line for it |
| ChunkedBody.HttpsClient.constructor | dep/dpp/httpsclient.cpp:177-180 | a fresh client waits for a chunk size |
| ChunkedBody.HttpsClient.RunPass | dep/dpp/httpsclient.cpp:132-268 | one pass of the switch computes the step function on the object |
| ChunkedBody.HttpsClient.HandleBuffer | dep/dpp/httpsclient.cpp:128-271 | the whole call equals the reading function, and its result says whether the reader stopped |
| ChunkedBody.NumberLine | dep/dpp/httpsclient.cpp:237-246 | white space, a sign, a 0x and hexadecimal digits in either case, with any rest that is no digit behind them, convert to the signed number if it fits an int, and to nothing otherwise |
| ChunkedBody.NoNumberLine | dep/dpp/httpsclient.cpp:239-246 | without a digit behind white space and sign there is no number |
| ChunkedBody.HexByTable | dep/dpp/httpsclient.cpp:241-241 | the digits are 0-9, A-F and a-f, with their usual values |
| ChunkedBody.BadLineStops | dep/dpp/httpsclient.cpp:239-246 | a size line that does not convert ends the reading behind it with the body as it is |
| ChunkedBody.NegativeSize | dep/dpp/httpsclient.cpp:241-241 | a negative size becomes a size_t close to 2^64, so all that follows is content |
| ChunkedBody.WaitsForLineEnd | dep/dpp/httpsclient.cpp:132-268 | without a carriage return and line feed nothing is taken for a line or a trailer, and the client waits unchanged |
| WebSocket.PutLength64 | dep/dpp/wsclient.cpp:89-92 | the eight length bytes, most significant first, and nothing else of the buffer |
| WebSocket.PutLength | dep/dpp/wsclient.cpp:77-93 | the minimal length form of section 5.2 of RFC 6455 is written behind the first byte |
| WebSocket.FillHeader | dep/dpp/wsclient.cpp:72-105 | the header bytes and their number, and nothing of the buffer behind them changes |
| WebSocket.MinimalForm | dep/dpp/wsclient.cpp:72-105 | FIN and opcode, mask bit, zero key in the last four bytes, and the one of the three length forms that is minimal, holding the length |
| WebSocket.HeaderFits | dep/dpp/wsclient.cpp:114-115 | the ten-byte header buffer of the callers holds the header exactly for payloads up to 65535 bytes |
| WebSocket.Extent | dep/dpp/wsclient.cpp:187-224 | a complete header locates its payload behind itself |
| WebSocket.Big16 | dep/dpp/wsclient.cpp:207-209 | two bytes combine to the big-endian number |
| WebSocket.Big64 | dep/dpp/wsclient.cpp:218-222 | the loop over the eight length bytes combines them to the big-endian number |
| WebSocket.FrameEnd | dep/dpp/wsclient.cpp:226-239 | the end of a frame is the sum of header and payload length as long as it fits 64 bits |
| WebSocket.ParseFrame | dep/dpp/wsclient.cpp:172-264 | a frame is erased with no more bytes than there are |
| WebSocket.WrappedFrame | dep/dpp/wsclient.cpp:218-239 | a 64-bit length of 2^64 - 10 or more makes the end wrap to 0 to 9: all that is buffered is delivered as payload, and that many bytes are erased |
| WebSocket.PlainFrame | dep/dpp/wsclient.cpp:197-239 | any other frame is delivered with its payload and erased with its header and payload, at least two bytes |
| WebSocket.ParseStable | dep/dpp/wsclient.cpp:172-264 | once a frame, a masked frame, a close or a bad opcode is recognised, further bytes do not change that, except that they lengthen the payload of a frame whose end wraps |
| WebSocket.Drain | dep/dpp/wsclient.cpp:159-162 | draining ends where no further frame can be erased |
| WebSocket.ReachStays | dep/dpp/wsclient.cpp:159-162 | a frame with a wrapped end that draining comes to is come to as well when more bytes are there |
| WebSocket.DrainSplitIff | dep/dpp/wsclient.cpp:159-162 | draining what arrived and then going on with the next bytes (unless it hangs) equals draining all, the frame at which a client hangs included, if and only if no frame with a wrapped end was come to before them |
| WebSocket.CutIff | dep/dpp/wsclient.cpp:159-162 | for a given cutting into reads, the last of which may never return: the same frames, once or for ever, and the same bytes left as in one read, if and only if no frame with a wrapped end is come to while bytes are still to come |
| WebSocket.SplitIndependentIff | dep/dpp/wsclient.cpp:159-162 | for a given stream: every cutting into reads delivers the frames and leaves the bytes of one read, if and only if no frame with a wrapped end, that is a 64-bit length of 2^64 - 10 or more, is come to before the last byte |
| WebSocket.StuckFrameCut | dep/dpp/wsclient.cpp:218-241 | a byte behind ten such bytes: read apart it is never seen, read together it is the payload delivered for ever |
| WebSocket.ReportedAgain | dep/dpp/wsclient.cpp:245-259 | a close frame or a bad opcode stays at the head and is reported again in every later read |
| WebSocket.RunningIff | dep/dpp/wsclient.cpp:161-161 | after n passes the loop asks for another exactly if n is at most the number of frames or it hangs where draining stops |
| WebSocket.SpunIsDrained | dep/dpp/wsclient.cpp:161-161 | as many passes as there are frames deliver all of them; later ones erase nothing and deliver at most the stuck frame again |
| WebSocket.HangsIff | dep/dpp/wsclient.cpp:186-239 | draining stops at a head that asks for ever exactly if it is a masked data frame or has a 64-bit length of 2^64 - 10 |
| WebSocket.NeverEndsIff | dep/dpp/wsclient.cpp:159-162 | the loop never ends if and only if draining stops at a masked data frame or at a 64-bit length of 2^64 - 10 |
| WebSocket.MaskedFrameHangs | dep/dpp/wsclient.cpp:186-195 | four bytes on which every pass asks for another |
| WebSocket.StuckFrameHangs | dep/dpp/wsclient.cpp:218-241 | ten bytes on which every pass delivers an empty frame and asks for another |
| WebSocket.EveryReadReturns | dep/dpp/wsclient.cpp:159-162 | how many frames are delivered, what is left and whether the loop hangs do not depend on the cutting; if the loop would end on all the bytes at once, it ends in every read of them |
| WebSocket.LengthRoundTrip | dep/dpp/wsclient.cpp:197-224 | the parser locates the payload of an unmasked frame of any length |
| WebSocket.ParseInvertsWire | dep/dpp/wsclient.cpp:172-242 | the parser returns opcode, payload and size of every unmasked frame, whatever follows, once four bytes are there |
| WebSocket.StreamDelivered | dep/dpp/wsclient.cpp:159-162 | a stream of unmasked frames is delivered frame for frame; a last frame shorter than four bytes stays in the buffer until more arrives |
| WebSocket.LastFrame | dep/dpp/wsclient.cpp:174-176 | the last frame is delivered exactly if it has at least four bytes on the wire |
| WebSocket.WebsocketClient.constructor | dep/dpp/wsclient.cpp:37-44 | nothing buffered and nothing delivered |
| WebSocket.WebsocketClient.ParseHeader | dep/dpp/wsclient.cpp:172-264 | one call delivers and erases one frame, reports an error, asks again or waits, as the parse function says |
| WebSocket.WebsocketClient.HandleBuffer | dep/dpp/wsclient.cpp:159-162 | for every input and number of passes: what that many passes deliver, keep and report, and whether the loop still runs; with more passes than frames everything drained is delivered and the loop still runs exactly at a masked data frame or a 64-bit length of 2^64 - 10 |
| WebSocket.HeadWithoutFrame | dep/dpp/wsclient.cpp:174-262 | by the first two bytes: fewer than four bytes wait, opcode 8 is a close with the code from the next two bytes, opcodes other than 0, 1, 2, 8, 9 and 10 are bad, and a masked data frame is left alone |
| WebSocket.HeadOfSmall | dep/dpp/wsclient.cpp:197-242 | a length byte below 126 is the length, behind two header bytes |
| WebSocket.HeadOfLarge | dep/dpp/wsclient.cpp:200-242 | length byte 126: two bytes of length, the header four bytes, but eight are waited for |
| WebSocket.HeadOfHuge | dep/dpp/wsclient.cpp:212-242 | length byte 127: eight bytes of length, the header ten bytes |
| EtfTerm.FromLeOfLe | dep/dpp/etf.cpp:89-97 | the base-256 digits of a number stand for that number |
| EtfTerm.LeLength | dep/dpp/etf.cpp:90-97 | a number below 256^k takes at most k digits |
| EtfTerm.NormKeepsSmall | dep/dpp/etf.cpp:642-656 | what comes back is the value itself when its integers fit 32 bits |
| EtfTerm.TooLargeIff | dep/dpp/etf.cpp:681-701 | the builder refuses exactly the values with an array or object of more than 2^32 - 2 elements somewhere in them |
| EtfDecode.ReadNum | dep/dpp/etf.cpp:225-259 | a fixed-width read succeeds exactly if its bytes are there, advances by its width and yields a number of that width |
| EtfDecode.ReadString | dep/dpp/etf.cpp:261-269 | a string read yields exactly the requested length or, past the end, nothing and consumes nothing |
| EtfDecode.DecodeBigInt | dep/dpp/etf.cpp:401-437 | a big integer, when it decodes, ends inside the input |
| EtfDecode.DecodeLeaf | dep/dpp/etf.cpp:569-625 | every type without parts ends inside the input; `EtfWire` says what it decodes to |
| EtfDecode.Emplace | dep/dpp/etf.cpp:358-362 | inserting a field keeps every field already there, adds nothing but the new one, and leaves the object non-empty |
| EtfDecode.ReadIds | dep/dpp/etf.cpp:535-538 | the ids of a reference end inside the input |
| EtfDecode.Decode | dep/dpp/etf.cpp:569-625 | for every input and offset: the recursion terminates, and a decoded value takes at least one byte and ends inside the input |
| EtfDecode.DecodeCompound | dep/dpp/etf.cpp:569-625 | lists, maps, tuples, references, ports, pids and exports end inside the input, for every count they claim |
| EtfDecode.DecodeList | dep/dpp/etf.cpp:333-343 | a list with its tail ends inside the input |
| EtfDecode.DecodeArray | dep/dpp/etf.cpp:325-331 | an array that decodes has exactly the claimed number of items |
| EtfDecode.DecodeFields | dep/dpp/etf.cpp:353-365 | a map ends inside the input |
| EtfDecode.Parse | dep/dpp/etf.cpp:627-638 | a successful parse took the version byte and at least one more, inside the input |
| EtfRoundTrip.StrDecodes | dep/dpp/etf.cpp:449-457 | a string comes back whole if its length fits 32 bits and otherwise never as itself |
| EtfRoundTrip.BigIntDecodes | dep/dpp/etf.cpp:401-442 | the eight-byte integer form comes back as decimal text |
| EtfRoundTrip.IntDecodes | dep/dpp/etf.cpp:642-656 | which value comes back for every 64-bit integer: itself, its decimal text, or its low 32 bits |
| EtfRoundTrip.IntRoundTripIff | dep/dpp/etf.cpp:642-656 | an integer survives exactly if it fits a signed 32-bit integer or lies in [2^32 - 2, 2^63) |
| EtfRoundTrip.LeafRoundTripIff | dep/dpp/etf.cpp:640-679 | for scalars the round trip succeeds on the domain and yields another value off it |
| EtfRoundTrip.EmplaceAppends | dep/dpp/etf.cpp:358-362 | with ascending keys, inserting a decoded field appends it |
| EtfRoundTrip.ItemsRoundTrip | dep/dpp/etf.cpp:691-695 | the items of an array come back and exactly their encoding is consumed |
| EtfRoundTrip.FieldsRoundTrip | dep/dpp/etf.cpp:704-708 | the fields of an object come back, behind those decoded before, and exactly their encoding is consumed |
| EtfRoundTrip.RoundTrip | dep/dpp/etf.cpp:569-710 | for every value of the domain, anywhere in an input: the value (large integers as text) comes back and exactly its encoding is consumed |
| EtfRoundTrip.BuildThenParse | dep/dpp/etf.cpp:627-717 | parsing what was built gives the value; the very value when its integers fit 32 bits |
| EtfDomain.EmptyArrayEncoding | dep/dpp/etf.cpp:681-695 | an empty array is written as a nil marker followed by a complete empty list |
| EtfDomain.LagDecodes | dep/dpp/etf.cpp:333-351 | reading on inside such left-over tokens yields an empty list and stays inside them |
| EtfDomain.ItemsLag | dep/dpp/etf.cpp:325-331 | an array read from such a lag either differs or ends in a lag again |
| EtfDomain.ItemsOut | dep/dpp/etf.cpp:691-695 | an array with an item outside the domain comes back different or ends short of its encoding |
| EtfDomain.ArrOut | dep/dpp/etf.cpp:680-696 | the same for the array with its header and tail |
| EtfDomain.FieldsOut | dep/dpp/etf.cpp:353-365 | the same for the fields of an object |
| EtfDomain.ObjOut | dep/dpp/etf.cpp:697-709 | the same for the object with its header |
| EtfDomain.OutOfDomain | dep/dpp/etf.cpp:569-710 | outside the domain a value either comes back different or the parser stops short of the end of its encoding |
| EtfDomain.RoundTripIff | dep/dpp/etf.cpp:569-710 | the exact domain: value and exact consumption hold if and only if no container is empty, every integer survives and no length exceeds 32 bits |
| EtfDomain.DecodedStrShort | dep/dpp/etf.cpp:449-457 | no decoded string is longer than a 32-bit length can say |
| EtfDomain.FieldsKept | dep/dpp/etf.cpp:356-363 | decoding fields keeps those already there |
| EtfDomain.LongKeyLost | dep/dpp/etf.cpp:356-363 | a key too long for its length field never arrives |
| EtfDomain.LagIsNoKey | dep/dpp/etf.cpp:357-362 | inside a lag no further key can be read |
| EtfDomain.EmptyArrayStopsShort | dep/dpp/etf.cpp:681-695 | an empty array comes back with one of its seven bytes consumed |
| EtfDomain.NestedEmptyArrayIsLost | dep/dpp/etf.cpp:333-343 | an array holding an empty array comes back as null |
| EtfDomain.EmptyObjectIsLost | dep/dpp/etf.cpp:353-365 | an empty object comes back as null |
| EtfWire.WireDecodes | dep/dpp/etf.cpp:569-625 | every inbound form, anywhere in an input: written as its tag number and fields say, it comes back with its value and exactly its bytes are consumed |
| EtfWire.WireParses | dep/dpp/etf.cpp:627-638 | the same of a whole parse behind the version byte 131, whatever follows |
| EtfWire.NumberDecodes | dep/dpp/etf.cpp:313-399 | tags 97, 98 and 70: one unsigned byte, four bytes of a signed integer, eight bytes of a float |
| EtfWire.AtomDecodes | dep/dpp/etf.cpp:275-313 | tags 100 and 115, with two and one byte of length: nil and null are null, true and false booleans, any other atom its text |
| EtfWire.CharsDecode | dep/dpp/etf.cpp:469-479 | tag 107: two bytes of length and one small integer for each byte |
| EtfWire.BigDecodes | dep/dpp/etf.cpp:401-447 | tags 110 and 111: the digits, least significant first, as decimal text, negated as a 64-bit integer if the sign byte is not 0 |
| EtfWire.TupleDecodes | dep/dpp/etf.cpp:481-487 | tags 104 and 105, with one and four bytes of arity, are arrays |
| EtfWire.ListDecodes | dep/dpp/etf.cpp:333-351 | tag 108 is an array if its tail is nil, and null otherwise |
| EtfWire.MapDecodes | dep/dpp/etf.cpp:353-365 | tag 116: the pairs inserted one after another, null if there are none |
| EtfWire.ReferenceDecodes | dep/dpp/etf.cpp:514-526 | tag 101: node, id and creation |
| EtfWire.NewReferenceDecodes | dep/dpp/etf.cpp:528-542 | tag 114: node, creation and the ids, as many as the two count bytes say |
| EtfWire.PortDecodes | dep/dpp/etf.cpp:544-550 | tag 102: node, id and creation |
| EtfWire.PidDecodes | dep/dpp/etf.cpp:552-559 | tag 103: node, id, serial and creation |
| EtfWire.ExportDecodes | dep/dpp/etf.cpp:561-567 | tag 113: module, function and arity |
| EtfWire.EmplaceIsMap | dep/dpp/etf.cpp:358-362 | an insertion keeps the keys in order, gives a new key its value and changes no key that is there |
| EtfWire.OtherTagsFail | dep/dpp/etf.cpp:569-625 | any other tag, and the three forms that are refused, are exceptions |
| EtfWire.CutTextIsNull | dep/dpp/etf.cpp:261-269 | a text, atom or text float that is cut off is null |
| EtfWire.LongBigFails | dep/dpp/etf.cpp:401-406 | a big integer of more than eight digits is an exception |
| EtfWire.OtherKeysFail | dep/dpp/etf.cpp:356-363 | a key that is neither text nor number is an exception |
| EtfWire.EncodeIsWire | dep/dpp/etf.cpp:640-710 | in the round-trip domain the builder writes these forms, by tag number and field width |
| EtfWire.DecimalReads | dep/dpp/etf.cpp:417-436 | the text of a number reads back as the number, without leading zeros |
| EtfCodec.EtfBuffer.constructor | dep/dpp/etf.cpp:719-722 | an empty buffer |
| EtfCodec.EtfBuffer.Write | dep/dpp/etf.cpp:46-55 | appends exactly the given bytes, in the old storage or in a new one when it must grow |
| EtfCodec.Digits256 | dep/dpp/etf.cpp:93-97 | the digit loop yields the base-256 digits |
| EtfCodec.AppendInt | dep/dpp/etf.cpp:642-656 | the integer branches append the encoding of the integer |
| EtfCodec.InnerBuild | dep/dpp/etf.cpp:640-710 | appends exactly the encoding of the value, and fails exactly if a container is too large |
| EtfCodec.BuildArray | dep/dpp/etf.cpp:680-696 | the same for an array |
| EtfCodec.BuildObject | dep/dpp/etf.cpp:697-709 | the same for an object |
| EtfCodec.Build | dep/dpp/etf.cpp:712-717 | the version byte and the encoding, or the exception |
| EtfCodec.EtfParser.constructor | dep/dpp/etf.cpp:218-220 | a parser over its host conversions |
| EtfCodec.EtfParser.Read | dep/dpp/etf.cpp:225-259 | the reading methods agree with the specification in value, error and offset |
| EtfCodec.EtfParser.ReadText | dep/dpp/etf.cpp:261-269 | likewise for strings |
| EtfCodec.EtfParser.ParseBigInt | dep/dpp/etf.cpp:401-437 | big integers agree with the specification |
| EtfCodec.EtfParser.ReadDigits | dep/dpp/etf.cpp:408-414 | the digit loop, one byte at a time, yields the positional value, or fails exactly if a digit is missing |
| EtfCodec.EtfParser.ParseLeaf | dep/dpp/etf.cpp:569-625 | the scalar branches agree with the specification, whose values `WireDecodes` gives by the bytes at the offset |
| EtfCodec.EtfParser.ParseIds | dep/dpp/etf.cpp:535-538 | the id loop agrees with the specification |
| EtfCodec.EtfParser.ParseArray | dep/dpp/etf.cpp:325-331 | the item loop agrees with the specification |
| EtfCodec.EtfParser.ParseFields | dep/dpp/etf.cpp:356-363 | the field loop agrees with the specification |
| EtfCodec.EtfParser.ParseList | dep/dpp/etf.cpp:333-343 | the list decoder agrees with the specification |
| EtfCodec.EtfParser.ParseCompound | dep/dpp/etf.cpp:569-625 | the compound branches agree with the specification and keep the offset inside the input |
| EtfCodec.EtfParser.ParseRecord | dep/dpp/etf.cpp:514-567 | references, ports, pids and exports likewise |
| EtfCodec.EtfParser.InnerParse | dep/dpp/etf.cpp:569-625 | the recursive parser terminates, agrees with the specification, and leaves the offset between its old value and the end of the input, also after an exception |
| EtfCodec.EtfParser.ParseAll | dep/dpp/etf.cpp:627-638 | the same of a whole parse, for every input, well-formed or not |
| RequestQueue.HashFrom | dep/dpp/queues.cpp:401-407 | the hash stays in 32 bits |
| RequestQueue.ThreadOf | dep/dpp/queues.cpp:410-412 | one thread of the pool for every endpoint |
| RequestQueue.Filter | dep/dpp/queues.cpp:319-334 | what is left are exactly the requests not completed |
| RequestQueue.Waiting | dep/dpp/queues.cpp:242-345 | what waits for an endpoint holds no completed request |
| RequestQueue.InitialInv | dep/dpp/queues.cpp:242-345 | the invariant holds at the start |
| RequestQueue.PostKeeps | dep/dpp/queues.cpp:383-390 | posting keeps the invariant |
| RequestQueue.BeginKeeps | dep/dpp/queues.cpp:251-262 | copying the pending map keeps the invariant |
| RequestQueue.StartKeeps | dep/dpp/queues.cpp:264-293 | starting a request keeps the invariant |
| RequestQueue.LeaveBucketKeeps | dep/dpp/queues.cpp:274-285 | leaving a bucket that must wait, or is done, keeps the invariant |
| RequestQueue.FinishKeeps | dep/dpp/queues.cpp:295-314 | booking a response keeps the invariant, rate limits included |
| RequestQueue.FinishQueues | dep/dpp/queues.cpp:295-314 | a finished request leaves the head of its endpoint's queue and no other queue changes |
| RequestQueue.CleanUpKeeps | dep/dpp/queues.cpp:318-334 | erasing completed requests keeps the invariant |
| RequestQueue.DeliverKeeps | dep/dpp/queues.cpp:357-371 | delivering a response keeps the invariant |
| RequestQueue.StepKeeps | dep/dpp/queues.cpp:242-390 | every enabled step, of any thread, keeps the invariant |
| RequestQueue.ExecutionInv | dep/dpp/queues.cpp:242-390 | the invariant holds in every state of every execution |
| RequestQueue.QueueGuarantees | dep/dpp/queues.cpp:242-390 | in every reachable state: no request is run or delivered twice, deliveries are in order of completion, each endpoint's runs are a prefix of its posts, every posted request is waiting, in the response queue or delivered and never two of these, and an exhausted endpoint waited for its limit |
| RequestQueue.RunsAreDistinct | dep/dpp/queues.cpp:264-315 | no request is run twice |
| RequestQueue.CallbacksOnceInOrder | dep/dpp/queues.cpp:357-371 | no handler is called twice, and handlers are called in the order the runs finished |
| RequestQueue.ExactlyOnePlace | dep/dpp/queues.cpp:242-390 | a request is posted exactly if it is in one of three places, and it is never in two |
| RequestQueue.RunsInPostOrder | dep/dpp/queues.cpp:392-412 | the requests of one endpoint are run in the order they were posted |
| RequestQueue.WaitsForTheLimit | dep/dpp/queues.cpp:264-305 | after a response with remaining < 1 the next run on that endpoint starts only strictly after its timestamp plus retry_after, or reset_after if that is zero |
| RequestQueue.ThreadIsHash | dep/dpp/queues.cpp:401-412 | the thread is a hash modulo the pool: 17 at first, then 31 times itself plus the next signed char modulo 2^32, and nothing after a NUL counts |
| RequestQueue.StartEnabledIff | dep/dpp/queues.cpp:264-293 | in every reachable state a thread at a request may run it exactly if the endpoint was never run, its last run left something, or the clock is past that run's end plus its wait; otherwise, and only then, it leaves the endpoint |
| RequestThread.Hash | dep/dpp/queues.cpp:401-407 | the loop computes the hash function |
| RequestThread.InThread.constructor | dep/dpp/queues.cpp:218-221 | a thread without requests and buckets |
| RequestThread.InThread.PostRequest | dep/dpp/queues.cpp:383-390 | the request is appended to its endpoint's queue, as in the post step |
| RequestThread.InThread.Decide | dep/dpp/queues.cpp:268-293 | a request may run exactly if its endpoint has no bucket, the bucket has something left, or the clock is strictly past the 64-bit sum of timestamp and retry_after, or reset_after if that is zero |
| RequestThread.InThread.FindCompleted | dep/dpp/queues.cpp:323-331 | finds a completed request if there is one |
| RequestThread.InThread.RemoveCompleted | dep/dpp/queues.cpp:319-334 | the erase-one-and-restart loop ends with exactly the clean-up of the step |
| CameraModel.WorldObject.constructor | src/game/Camera.h:109-109 | no cameras and no grid |
| CameraModel.WorldObject.Attach | src/game/Camera.h:92-92 | the camera is appended |
| CameraModel.WorldObject.Detach | src/game/Camera.h:93-93 | the camera's occurrences are removed and the order of the others kept |
| CameraModel.WorldObject.CallOne | src/game/Camera.h:101-102 | one handler call keeps the invariant and removes at most the called camera, while those still to come stay in the list |
| CameraModel.WorldObject.Advance | src/game/Camera.h:99-103 | the iterator, moved on before the call, stands on the next camera of the original list although the call may unlink the current one |
| CameraModel.WorldObject.CallAll | src/game/Camera.h:99-103 | the loop calls every camera of the original list once, in order |
| CameraModel.WorldObject.CameraCall | src/game/Camera.h:95-105 | exactly the initially attached cameras are called, once each and in order; exactly the staying ones remain; every other camera keeps its source |
| CameraModel.WorldObject.EventAddedToWorld | src/game/Camera.h:115-119 | all cameras are called, stay, and are linked to the new grid |
| CameraModel.WorldObject.EventGridChanged | src/game/Camera.h:127-131 | all cameras are called, stay, and are linked to the new grid |
| CameraModel.WorldObject.EventRemovedFromWorld | src/game/Camera.h:121-125 | only the object's own camera remains if and only if the owner of every other viewer is in the world; those that leave look at their owner again |
| CameraModel.Camera.constructor | src/game/Camera.cpp:29-32 | a new camera looks at its owner and the invariant holds with it |
| CameraModel.Camera.Destroy | src/game/Camera.cpp:34-41 | after the destructor no list holds the camera |
| CameraModel.Camera.SetView | src/game/Camera.cpp:58-98 | another viewable object on the owner's map, with both in the world, gets the view: the camera moves from one list to the end of the other; otherwise nothing changes; invariant kept |
| CameraModel.Camera.ResetView | src/game/Camera.cpp:106-109 | back to the owner if the owner is in the world, otherwise nothing changes |
| CameraModel.Camera.UpdateForCurrentViewPoint | src/game/Camera.cpp:48-56 | the camera is linked to its source's grid |
| CameraModel.Camera.Handle | src/game/Camera.cpp:100-135 | each handler either leaves the lists alone or sends the camera back to its owner; invariant kept |
| CameraModel.WorldObject.RemoveFromWorld | src/game/Objects/Unit.cpp:9005-9033 | if every player's view is reset before it leaves, no camera of somebody outside the world looks through another object, and a removed object keeps only its own camera |
| CameraModel.StrandedViewer | src/game/Camera.cpp:106-129 | a removed object that keeps the camera of a viewer who left the world without that |
| CameraModel.ExactlyOnce | src/game/Camera.h:83-93 | each camera occurs exactly once in its source's list and in no other |
| CameraModel.ConsistentMatched | src/game/Camera.h:83-93 | the invariant as a matching between lists and sources |
| CameraModel.MoveKeeps | src/game/Camera.cpp:77-87 | detaching from one list and attaching to another keeps the matching |
| CameraModel.WithoutMiddle | src/game/Camera.h:93-93 | removing a camera from a list without repetitions cuts out its one occurrence |
| CameraModel.NextInMiddle | src/game/Camera.h:99-101 | the successor that the iterator holds |
| CameraModel.WorldObject.EventViewPointVisibilityChanged | src/game/Camera.h:133-136 | exactly the cameras stay whose owner is the object, is shown it, or is not in the world; the others look at their owner again |
| Conditions.RequirementOf | src/game/Conditions.cpp:708-713 | connectives and the empty condition ask for no parameters; `RowsByType` gives every leaf type's requirement |
| Conditions.ValidIsWellFoundedIff | src/game/Conditions.cpp:784-857 | an entry that passes validation refers only to lower entries if and only if value3 and value4 do when it is a NOT |
| Conditions.SelfReferenceIsAccepted | src/game/Conditions.cpp:788-802 | a NOT entry whose third value is itself passes validation |
| Conditions.RunIsMeets | src/game/Conditions.cpp:124-184 | on a well-founded storage a run as deep as the entry id ends with the result of the evaluation |
| Conditions.RankedEnds | src/game/Conditions.cpp:124-184 | wherever references lead to lower ranks of any ranking, every run ends with a result, within the rank |
| Conditions.UntilAppend | src/game/Conditions.cpp:152-184 | the references are followed in order until one decides |
| Conditions.CycleDiverges | src/game/Conditions.cpp:152-184 | connectives whose first references stay among them never come to an end, whatever the leaves and arguments are |
| Conditions.SelfReferenceDiverges | src/game/Conditions.cpp:152-162 | so the entry that validation lets pass is never evaluated to the end |
| Conditions.EvaluateIsJoined | src/game/Conditions.cpp:148-184 | a connective, negated or not, is the conjunction or disjunction of its children (De Morgan, with the optional children) |
| Conditions.CompilePreserves | src/game/Conditions.cpp:124-184 | the negation normal form with swap and negation pushed to the leaves has the same result as the recursive evaluation, on every well-founded storage |
| Conditions.CompileOk | src/game/Conditions.cpp:124-184 | that form refers only to entries of the storage |
| Conditions.JunctionValue | src/game/Conditions.cpp:163-184 | a junction's value is that of its parts joined |
| Conditions.PathReachesLit | src/game/Conditions.cpp:129-130 | along every path of references the leaf is evaluated with source and target swapped exactly if the path carries an odd number of swap flags |
| Conditions.LitHasPath | src/game/Conditions.cpp:129-130 | and every leaf evaluation lies at the end of such a path |
| Conditions.NotUnfolds | src/game/Conditions.cpp:152-162 | a NOT with one reference negates the child's result |
| Conditions.WithoutNotIff | src/game/Conditions.cpp:124-162 | replacing a NOT with one reference by its child with the flags combined by exclusive or preserves the result if and only if the child's parameter check passes or the NOT is reversed |
| Conditions.EvaluateIgnoresPlace | src/game/Conditions.cpp:148-184 | evaluation looks neither at the entry's flags nor at its id |
| Conditions.ReplaceRow | src/game/Conditions.cpp:124-184 | exchanging an entry for one with the same results preserves the result of every condition in the storage |
| Conditions.RewriteNot | src/game/Conditions.cpp:124-184 | so a NOT over a connective, or a reversed NOT, can be rewritten wherever it is used |
| Conditions.DisabledIsNeverFulfilled | src/game/Conditions.h:345 | a disabled entry yields what its condition would if never fulfilled: its reverse flag |
| Conditions.LeafMeets | src/game/Conditions.cpp:124-146 | a leaf without the objects its type needs is not met, whatever its own test and the reverse flag are; with them it is its test, reversed as flagged; the swap flag exchanges target and source for both |
| Conditions.NoneMeets | src/game/Conditions.cpp:124-150 | the empty condition is met unless reversed |
| Conditions.ConnectiveMeets | src/game/Conditions.cpp:148-184 | NOT, OR and AND by the results of the entries they refer to, with the optional third and fourth, swapped and reversed as flagged |
| Conditions.GivenIsChecks | src/game/Conditions.cpp:708-781 | the parameter check of a type asks for what its group of types needs |
| Conditions.RowsByType | src/game/Conditions.cpp:708-713 | the requirement of each of the leaf types 1 to 61, by number |
| Conditions.ValidConnectiveIff | src/game/Conditions.cpp:784-857 | what validation asks of the references of NOT, OR and AND |
| CreatureGroups.PutIsUpdate | src/game/CreatureGroups.cpp:31-38 | writing a member replaces exactly the entry of its guid and keeps the guid order |
| CreatureGroups.DropIsErase | src/game/CreatureGroups.cpp:250-258 | erasing removes exactly the entry of the guid and keeps the order |
| CreatureGroups.FirstLivingIsLeast | src/game/CreatureGroups.cpp:82-94 | the first living other member is the one with the least guid |
| CreatureGroups.PutSound | src/game/CreatureGroups.cpp:26-42 | adding a member keeps the leader a member or the original, and the options above every member's flags |
| CreatureGroups.DropSound | src/game/CreatureGroups.cpp:250-258 | erasing a member keeps that exactly if the member is not a temporary leader |
| CreatureGroups.DueOnce | src/game/CreatureGroups.cpp:157-166 | nobody is respawned twice in one sweep, and exactly the candidates that can be are |
| CreatureGroups.AtMostOnce | src/game/CreatureGroups.cpp:44-55 | however the world changes meanwhile, one sweep over the group turns to no creature twice, except to an original leader that is listed as a member too |
| CreatureGroups.HelpersOnce | src/game/CreatureGroups.cpp:44-55 | exactly the candidates that can assist do, and one that takes the target does so once |
| CreatureGroups.CreatureGroup.AddMember | src/game/CreatureGroups.cpp:26-42 | refuses exactly the current leader, otherwise writes the member and adds its flags to the options |
| CreatureGroups.CreatureGroup.OnMemberDied | src/game/CreatureGroups.cpp:57-112 | leader and members are told as the options say, each turned to once and in order, whatever they do; by the state they leave, if the dead one led a formation whose original leader patrols, the lead goes to a living other member with no smaller such guid, or to the original if there is none; in every other case the leader stays |
| CreatureGroups.CreatureGroup.TellAll | src/game/CreatureGroups.cpp:59-74 | the candidates for the notification, each turned to once, in order; if nobody listens nothing changes |
| CreatureGroups.CreatureGroup.TellNext | src/game/CreatureGroups.cpp:70-73 | a creature is told exactly if at that moment it lives, is in the world and has an AI |
| CreatureGroups.CreatureGroup.SettleLead | src/game/CreatureGroups.cpp:76-112 | that choice, by the state it finds, and nothing but the leader changes |
| CreatureGroups.CreatureGroup.RemoveMember | src/game/CreatureGroups.cpp:250-258 | the invariant survives exactly if the member is not the temporary leader |
| CreatureGroups.CreatureGroup.RemoveTemporaryLeader | src/game/CreatureGroups.cpp:238-248 | the original leads again and the member is gone |
| CreatureGroups.CreatureGroup.OnRespawn | src/game/CreatureGroups.cpp:143-155 | the original's respawn gives it the lead back, and it leads afterwards unless a callback brought news of its death; with the respawn-together option all candidates due are respawned |
| CreatureGroups.CreatureGroup.OnLeaveCombat | src/game/CreatureGroups.cpp:114-141 | sweeps over the group exactly if any evade counts, or the master's does and the original leader evades itself or fights in the world with an AI while the group evades together; nothing changes otherwise |
| CreatureGroups.CreatureGroup.RespawnAll | src/game/CreatureGroups.cpp:157-166 | each candidate is tried once, in order, and none is respawned through a nested call, whatever the callbacks do; if they leave the world alone exactly those due are respawned; inside another respawn nothing happens; both guards are as before on exit |
| CreatureGroups.CreatureGroup.Respawn | src/game/CreatureGroups.cpp:168-210 | inside another respawn nothing happens; otherwise exactly this creature is respawned, if it is in the world, due and may be spawned, whatever its callbacks do |
| CreatureGroups.CreatureGroup.OnMemberAttackStart | src/game/CreatureGroups.cpp:44-55 | each other member, then the original leader, is asked once and nobody through a nested call, whatever the callbacks do; who assists is determined if they leave the world alone and respawn nobody |
| CreatureGroups.CreatureGroup.MemberAssist | src/game/CreatureGroups.cpp:212-236 | inside another assist nothing happens; otherwise exactly this creature assists, if at that moment it lives, has no victim and has an AI |
| CreatureGroups.CreatureGroup.RunCallback | src/game/CreatureGroups.cpp:157-236 | each of the four events, or a change to the world, does so |
| CreatureGroups.CreatureGroup.RespawnNext | src/game/CreatureGroups.cpp:160-165 | one turn of the sweep: the creature is looked up and, if it is there, respawned |
| CreatureGroups.CreatureGroup.AskNext | src/game/CreatureGroups.cpp:49-54 | one turn of the call for help |
| CreatureGroups.FindSuccessor | src/game/CreatureGroups.cpp:82-94 | the search finds the first living other member, or nobody |
| CreatureGroups.CreatureGroup.RunCallbacks | src/game/CreatureGroups.cpp:157-236 | any finite list of nested group events and changes to the world keeps the invariant and the guards, the lead moves away from the original only with its death, and the recursion ends |
| CreatureGroups.CreatureGroup.constructor | src/game/CreatureGroups.h:56 | the leader given is the original one, and no guard is set |
| CreatureGroups.StrangerLeads | src/game/CreatureGroups.cpp:250-258 | a group led by a creature that is not in it, after its temporary leader is erased |
| CreatureGroups.CreatureGroup.Leave | src/game/Objects/Creature.cpp:4061-4067 | a creature that leaves hands the lead back first if it holds it, so the invariant always survives |
| CreatureGroups.SuccessionIs | src/game/CreatureGroups.cpp:76-112 | the choice of a leader meets the rule that `OnMemberDied` states |
| CreatureGroups.CandidatesAre | src/game/CreatureGroups.cpp:157-166 | a sweep tries every member but the excepted one, in guid order, and then the original leader unless it is the excepted one |
| CreatureGroups.InformedAre | src/game/CreatureGroups.cpp:59-74 | a death is told to the original leader and then to the other members in guid order, each as its option says |
| CreatureGroups.SoundMeans | src/game/CreatureGroups.cpp:26-42 | the invariant in words of the fields: leader, flags and guid order |
| VoiceDrain.SerialIff | dep/dpp/discordvoiceclient.cpp:77-114 | with equal timestamps the comparison agrees with section 3.2 of RFC 1982 exactly if the numbers are less than half the number space apart or lie within 5000 on both sides of the wrap-around |
| VoiceDrain.WindowOrder | dep/dpp/discordvoiceclient.cpp:77-114 | in a window of 5000 the order is that of the offsets from its start, and serial |
| VoiceDrain.StrictTotalOrder | dep/dpp/discordvoiceclient.cpp:77-114 | in such a window it is a strict total order |
| VoiceDrain.ByZone | dep/dpp/discordvoiceclient.cpp:83-113 | with equal timestamps the comparison is that of the numbers, except that a number below 5000 comes after one of the last 5000 |
| VoiceDrain.TransitiveIff | dep/dpp/discordvoiceclient.cpp:77-114 | on a set of payloads the comparison is transitive if and only if no three of them with one timestamp lie below 5000, in the last 5000 numbers, and between |
| VoiceDrain.SpreadIsCircle | dep/dpp/discordvoiceclient.cpp:77-114 | three such payloads beat each other in a circle |
| VoiceDrain.TopIsNext | dep/dpp/discordvoiceclient.cpp:209-211 | the top of an orderly queue has the least offset |
| VoiceDrain.NextSlot | dep/dpp/discordvoiceclient.cpp:209-209 | the counter wraps, and each step brings it nearer to the top payload's number |
| VoiceDrain.PlayedStep | dep/dpp/discordvoiceclient.cpp:209-245 | one turn of the loop on an orderly queue puts the next payload in its slot |
| VoiceDrain.Drain | dep/dpp/discordvoiceclient.cpp:209-245 | the loop ends for every queue and every heap order; each payload is popped once, at its own number; an orderly queue gives one contiguous run in which the slot of a payload is its offset |
| VoiceDrain.TopIsEarliest | dep/dpp/discordvoiceclient.cpp:209-211 | the top has the earliest timestamp and among equals the least number, except that the last 5000 numbers come before the first 5000 |
| InstanceLimiter.AccountMgr.constructor | src/game/AccountMgr.cpp:659-663 | no entries |
| InstanceLimiter.AccountMgr.CheckInstanceCount | src/game/AccountMgr.cpp:659-686 | accepts exactly as specified and erases at most the first outdated entry in key order |
| InstanceLimiter.AccountMgr.AddInstanceEnterTime | src/game/AccountMgr.cpp:688-700 | writes the entry time of this account and instance and nothing else |
| InstanceLimiter.Pruned | src/game/AccountMgr.cpp:676-683 | the first outdated entry is the one that goes |
| InstanceLimiter.PrunedSize | src/game/AccountMgr.cpp:676-683 | the search keeps every current entry and makes room if any entry is outdated |
| InstanceLimiter.ZeroIsNeverEntered | src/game/AccountMgr.cpp:659-700 | the number 0 under which an instance that does not exist yet is checked is never a key of the table |
| InstanceLimiter.TableWithinLimit | src/game/AccountMgr.cpp:659-700 | in every run of checks and granted entries the table of an account never outgrows the limit |
| InstanceLimiter.CurrentIsWindow | src/game/AccountMgr.cpp:659-700 | the entries that are not outdated are exactly the instances entered within the last 3600 seconds |
| InstanceLimiter.NeverMoreThanMax | src/game/AccountMgr.cpp:659-700 | in every run with non-decreasing time, a limit of at least 1 and each entry granted by a check of its instance or, for a new instance, of number 0: any window of 3600 seconds holds at most that many distinct instances |
| InstanceLimiter.AcceptsIffRoom | src/game/AccountMgr.cpp:659-686 | a check succeeds if and only if fewer than maxCount other instances were entered within the last hour, although only one outdated entry is erased |
| InstanceLimiter.ZeroLimitIsNotKept | src/game/AccountMgr.cpp:661-663 | a limit of 0 is not kept: an unknown account is let in |
| InstanceLimiter.LimitKeptIff | src/game/AccountMgr.cpp:659-700 | after any such run, a further entry, checked or not, keeps the limit if and only if the limit is at least 1 and a check at that moment would succeed |
| InstanceLimiter.GrantsDoNotAddUp | src/game/AccountMgr.cpp:659-700 | two successful checks for new instances followed by two entries exceed a limit of 1, and a check before the second entry would have failed |
| InstanceLimiter.EnteredBetweenIs | src/game/AccountMgr.cpp:688-700 | the instances entered in a span are those some entry event of the run names |
| Permissions.BasePermissions | dep/dpp/guild.cpp:590-615 | all bits for the owner and for administrators, none without the everyone role, otherwise exactly the bits some role grants |
| Permissions.BasePermissionsOfUser | dep/dpp/guild.cpp:578-588 | those of the stored member, none for an unknown user |
| Permissions.FindOverwrite | dep/dpp/guild.cpp:629-635 | the first overwrite for the id and kind, or none |
| Permissions.ApplyOverwrite | dep/dpp/guild.cpp:628-635 | per bit: an allowance wins, then a denial, then what was there |
| Permissions.RoleOverwrites | dep/dpp/guild.cpp:646-661 | the bits that the first overwrite of some role other than everyone allows or denies |
| Permissions.PermissionOverwrites | dep/dpp/guild.cpp:679-729 | without the administrator bit: a bit is decided by the member's first overwrite if that mentions it, else by the roles' if one of them does, else by everyone's, and is otherwise the base bit; allowing wins within a level; an administrator has all bits |
| Permissions.PermissionOverwritesOfUser | dep/dpp/guild.cpp:617-677 | the same levels over the given base permissions, none for an unknown user |
| Permissions.GetMemberPermissions | dep/dpp/channel.cpp:529-536 | none when the guild is not cached; otherwise base permissions by the rules for owner, administrator and roles, then the channel's levels on top of them |
| Permissions.GetUserPermissions | dep/dpp/channel.cpp:518-527 | the same result for every user the guild knows, as for the stored member; none for others |
| Permissions.FoundDecides | dep/dpp/guild.cpp:629-635 | what the level's overwrite does to a bit |
| Permissions.RoleOrderIrrelevant | dep/dpp/guild.cpp:602-607 | neither the order of a member's roles nor a repeated one changes the result |
| Permissions.OverwriteOrderIrrelevant | dep/dpp/guild.cpp:629-635 | with one overwrite for each role and member, their order does not change the result |
| Permissions.OrderIrrelevantIff | dep/dpp/guild.cpp:629-635 | for a list of overwrites and a bit: no reordering changes the decision for any guild, member, roles and earlier value of the bit, if and only if no two overwrites for one id and kind treat the bit differently (what one allows it need not deny) |
| Permissions.DifferentFirst | dep/dpp/guild.cpp:629-635 | the member that tells two orders apart when they do |
| Permissions.OverwriteOrderMatters | dep/dpp/guild.cpp:629-635 | with two for the same id the first one decides |
| Permissions.FirstByIndex | dep/dpp/guild.cpp:629-635 | the overwrite that allows or denies for an id and a kind is the first in the list with both |
| Permissions.NoneMentions | dep/dpp/guild.cpp:629-635 | without such an overwrite the level mentions no bit |
| Permissions.BaseFollowsRules | dep/dpp/guild.cpp:590-615 | base permissions: all bits for the owner, none without the everyone role, all with an administrator bit from any role, otherwise the bits some role of the member or everyone grants |
| Permissions.OverwrittenFollowsRules | dep/dpp/guild.cpp:617-729 | the channel's levels: member before roles before everyone before the base bit, allowing before denying within each |

## Left out

- Loot: `IsSetUpgrade`, the parsing of configuration strings and legendary parts are one-line facts; single-precision rounding of chances is not modelled.
- HTTP: the header and plain-content states, trailer fields, and chunk sizes of 2^31 and more beyond the exception they raise. A chunk count above the chunk size cannot arise from the start state; the subtraction that would wrap there is cut at zero.
- WebSocket.WebsocketClient.HandleBuffer: watches the loop for a given number of passes, because the source's loop need not end; one pass more than there are frames shows everything.
- WebSocket: the handshake; replies to pings are not sent.
- EtfDecode.Decode: a compressed term is an error here, because inflating it is not part of this model.
- Term format: the text form of floats and the conversion of a float key to an integer are arbitrary functions of the host; floats are their 64 bits; negating the least 64-bit integer, undefined in the source, wraps; the depth of the native stack is not bounded; `append_long_long` and the other builder helpers that nothing calls are absent.
- Request queue: the global rate limit, the deletion of requests after 60 seconds, growing the thread pool, shutting down and the `limit` field of buckets. Every request object is posted once and the pool is fixed.
- Cameras: registration as active object, visibility updates, packets and unloading of maps.
- Conditions: leaf conditions are an arbitrary predicate of entry, target, map and source; the validity checks of leaves are not modelled, nor is `GetTeam`. The references of the two leaf types that call other conditions (47 and 50) are not followed.
- CreatureGroups.CreatureGroup.Respawn: `Creature::Respawn` is taken to make its creature alive and no longer due; the map holds every creature that raises an event.
- Creature groups: positions, teleports, motion orders, evade flags. What a creature's respawn or AI does to the group is an arbitrary finite list of further respawns, evades, deaths, attacks and changes to the world; deaths among them carry in turn what those told of them do, as a finite tree, since no guard ends such a chain in the source; none of them adds or removes a member, so that the loops over the member map are never invalidated. `DisbandGroup` and loading are absent.
- Voice: decoding, mixing and parking; the heap is any choice of an element, with the order's consequence required only where a theorem needs it.
- Instance limiter: a new instance is checked as number 0 and entered under its own number (`src/game/Maps/MapManager.cpp:240-242`), which the runs include. Game masters, who pass in spite of the check, and entries without one, such as a login inside an instance, are not part of the runs; `LimitKeptIff` tells what one such entry does.
- Permissions: the caches are maps that do not change during a call.
- Database access, sockets, threads, packets, configuration and the tools around the server are not part of this model.
