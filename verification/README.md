# Astronomy shop, verified

A Dafny model of the parts of the shop that hold state, arithmetic or encoding, and proofs of what they keep.
`dafny verify dfyconfig.toml` checks the whole project.

| files | what they model |
|---|---|
| `Wire`, `DecodeLoop`, `Messages`, `MessageTheorems`, `MessageStandard`, `MessageSizes`, `MessageBytes`, `FieldTrees`, `EncodedTrees` | the protobuf codec of the frontend on byte sequences: varints, the tag loop every message shares, nine messages, what holds of them, how it compares with the standard, how large messages get, their very bytes, and unknown fields at every level |
| `WireIO`, `MessageIO` | the same codec as the source runs it: a writer with a fork stack, a reader with a position, one write and one read method for each message |
| `Planning`, `PlanningTheorems`, `PlanningDelivery`, `PlanningService` | order batching between the Kafka thread and the scheduler thread, as the atomic steps the lock leaves |
| `ClusterObjects`, `Scenarios`, `ScenarioTheorems`, `ScenarioOutcomes`, `ScenarioRuns`, `ScenarioController` | the Kubernetes scenario controller: five modules over a namespace of objects |
| `CheckoutMoney`, `Checkout`, `CheckoutOrders` | money sums and products, the order total, which orders come out right, the promo discount |
| `PaymentTiming`, `PaymentRetry` | failure timing and the retry loop of a charge |
| `CircuitBreaker` | the status-check breaker of the shop load generator |
| `UserAttributes` | the user derived from a session id |
| `Currency` | digit loop, its inverse, and the conversion |
| `Wrappers`, `MachineInts` | options and results; machine integers, their wrap-around and truncating division |

## How the source is modelled

**Codec.** The reader and writer of `@bufbuild/protobuf` are written from the Protocol Buffers Encoding guide (sections
"Base 128 Varints", "Message Structure", "Length-Delimited Records", "Last One Wins"). A message supplies the cases of
its tag switch as a *handler*; one `Loop` runs any handler, and most facts are proved once for all handlers. The bound
`end` is kept as the number of bytes that remain unread at `end`, negative when a length prefix runs past the buffer.
A length of 2^32 or more makes `encode` throw; the `Fits` predicates say when no length does. `units` has the type of
a 64-bit integer, and decoding throws on one beyond 2^53-1 (`Safe` predicates), so the round trips are equivalences.
The source replaces a repeated submessage where the guide would merge it; the model follows the source, and
`MessageStandard` says exactly when the two agree.

**Planning.** Each thread is a program counter; a step is a locked section, the unlocked test for the first order, or the
outcome of a call. Fields after `scheduler` in the state are history for the theorems. The source clears whatever
the deques hold when an answer comes, so an order that arrives during a successful call is lost; `GapLosesAnOrder` shows
it, `LostExactly` says of each order when it is lost, and `SerialRunsDeliverExactlyOnce` says of each run without
overlapping calls when nothing is. The scheduler runs one call at a time, which is its default.

**Controller.** A `Turn` is what one module did in a pass: how its flag read went, and the namespace before and after. An
API call may throw before or after its effect, and the cluster counts the calls that do. `stamp` deep-copies a body in which the labels of the deployment and of
its pod template are one dictionary, so both get the part-of label; the model keeps that. A setting that is not a
number throws where `int()` is evaluated.

**Checkout.** `Sum` accepts canonical amounts and can return one that is not, which the next `Must` turns into a panic. The
exact domain is stated in three layers: one sum, a product by repeated sums, the whole order. A line of quantity zero is
charged once, because the product loop starts at one copy, and a negative quantity is converted to a large one;
`CheckoutOrders` says exactly which orders cost quantity times price, and what shipping below one unit does.

**Payment.** A comment in the source promises 4 to 7.3 seconds for three attempts. For totals below 4500 ms the code draws
from a range that is upside down, and the promise fails unless the draw is zero. A statement that
throws after an attempt's span was ended sends a charged payment to the catch block; the model keeps that path.

**Currency.** The digit loop forgets leading zeros of the nanos, so 1.05 is read as 1.5. The equivalences say where it is
right.

Random draws are arguments in [0, 1), and doubles are reals except where the model states that no rounding happens.
Clocks, flag values, gateway answers and Kafka polls are arguments as well.

## Model

| member | source | states |
|---|---|---|
| `MessageTheorems.ConfirmationRoundTrip` | src/frontend/protos/demo.ts:2885-2926 | for every request whose lengths fit a prefix, through all four nesting levels: decoding what was encoded gives the very same message with nothing left over, if and only if every `units` inside it is at most 2^53-1 in size; otherwise decoding throws |
| `MessageTheorems.OrderResultRoundTrip` | src/frontend/protos/demo.ts:2739-2813 | the same for an order, its address, shipping cost and items; an absent submessage and a present one with only defaults stay apart |
| `MessageTheorems.PlaceOrderRoundTrip` | src/frontend/protos/demo.ts:2963-3037 | the same for a place-order request, for every one whose lengths fit |
| `MessageTheorems.CartRoundTrip` | src/frontend/protos/demo.ts:580-621 | the same for a cart and its items |
| `MessageTheorems.MoneyRoundTrip` | src/frontend/protos/demo.ts:2149-2201 | money comes back exactly when `units` is a safe integer, negative `nanos` included |
| `MessageTheorems.ConfirmationBytesAreUnique` | src/frontend/protos/demo.ts:2885-2926 | two readable requests with the same bytes are the same request |
| `MessageTheorems.NestedOrderStopsAtItsLength` | src/frontend/protos/demo.ts:2759-2812 | a nested order is read by exactly its length prefix and its bytes, whatever follows |
| `MessageTheorems.OrderResultConcatMerges` | src/frontend/protos/demo.ts:2763-2806 | decoding two encodings one after the other gives the shallow merge: the later non-default scalar, the later present submessage as a whole, the items of both in order; it throws exactly when either alone would |
| `MessageTheorems.ConfirmationConcatMerges` | src/frontend/protos/demo.ts:2896-2926 | the same for a confirmation request |
| `MessageTheorems.PlaceOrderConcatMerges` | src/frontend/protos/demo.ts:2983-3037 | the same for a place-order request |
| `MessageTheorems.CartConcatMerges` | src/frontend/protos/demo.ts:591-621 | the same for a cart |
| `MessageStandard.OrdersMergeByTheStandard` | src/frontend/protos/demo.ts:2782-2797 | the standard's merge of two orders, submessages field by field, is what two encoded orders in a row decode to if and only if all amounts are safe and, for the cost and the address present in both, every scalar of the earlier is unset, repeated or overwritten |
| `MessageStandard.ConfirmationsMergeByTheStandard` | src/frontend/protos/demo.ts:2911-2919 | the same for confirmation requests: the later order must supersede the earlier as a whole, which then has no items and no part the later lacks |
| `MessageStandard.PlaceOrdersMergeByTheStandard` | src/frontend/protos/demo.ts:3006-3029 | the same for place-order requests, their address and their credit card |
| `MessageStandard.SubmessagesAreNotMerged` | src/frontend/protos/demo.ts:2782-2789 | two orders whose decoded bytes differ from the standard's merge: the second cost replaces the first instead of adding to it |
| `MessageStandard.DecodedConfirmationIsSafe` | src/frontend/protos/demo.ts:2896-2926 | whatever bytes are decoded, every amount in the request that comes out is a safe integer |
| `MessageStandard.DecodedConfirmationIsStable` | src/frontend/protos/demo.ts:2885-2926 | whatever bytes are decoded, writing the request again and reading it back gives the same request, whenever its lengths fit |
| `MessageSizes.DecodedConfirmationFits` | src/frontend/protos/demo.ts:2885-2926 | any buffer of at most 715,827,882 bytes that decodes gives a request whose lengths fit, written again in at most six times those bytes |
| `MessageSizes.SmallBuffersAreStable` | src/frontend/protos/demo.ts:2885-2926 | so it is written and read back as itself |
| `MessageStandard.DecodedOrderIsStable` | src/frontend/protos/demo.ts:2739-2813 | the same for an order |
| `DecodeLoop.WholeFieldsCarry` | src/frontend/protos/demo.ts:307-332 | any bytes that read as whole fields on their own, in any order and with unknown ones among them, act as one update in front of any other bytes and under any bound behind them |
| `DecodeLoop.UnknownFieldsIgnored` | src/frontend/protos/demo.ts:307-331 | for any handler: well-formed fields it does not know, put at a field boundary, do not change what the bounded loop gives |
| `DecodeLoop.NestedUnknownFieldsIgnored` | src/frontend/protos/demo.ts:2787-2788 | the same inside a length-prefixed submessage, whose prefix then counts them |
| `DecodeLoop.ForeignFieldCarries` | src/frontend/protos/demo.ts:327-330 | one unknown field of wire type 0, 1, 2 or 5 is stepped over as a whole |
| `DecodeLoop.LoopExtends` | src/frontend/protos/demo.ts:305-332 | bytes past the bound never change what the loop reads |
| `DecodeLoop.NestedInverse` | src/frontend/protos/demo.ts:2747-2749 | a child written between `fork` and `join` is read under a bound that ends where it ends |
| `MessageTheorems.OrderResultToleratesUnknownFields` | src/frontend/protos/demo.ts:2763-2811 | after any bytes that read as whole fields and before any bytes at all, readable or not: fields whose tag is not one of 10, 18, 26, 34, 42 (a known number with another wire type included) leave the decoded order or the error unchanged |
| `MessageTheorems.ConfirmationToleratesUnknownFields` | src/frontend/protos/demo.ts:2896-2926 | the same for a confirmation request |
| `MessageTheorems.CartToleratesUnknownFields` | src/frontend/protos/demo.ts:595-619 | the same for a cart |
| `MessageTheorems.PlaceOrderToleratesUnknownFields` | src/frontend/protos/demo.ts:2987-3035 | the same for a place-order request |
| `MessageTheorems.UnknownFieldsAfterAnOrder` | src/frontend/protos/demo.ts:2763-2811 | between two encoded orders, unknown fields leave the shallow merge as it is |
| `MessageTheorems.UnknownFieldsInsideTheOrder` | src/frontend/protos/demo.ts:2911-2919 | unknown fields between two parts of a nested order leave what the field of the request reads as it is |
| `FieldTrees.UnknownFieldsAtEveryLevel` | src/frontend/protos/demo.ts:2885-2926 | for any request given as a tree of fields, in any order and repeated, down to the amount of an item of the order: unknown fields at the boundaries of any of its messages, all at once, leave the decoded request or the error as it is |
| `EncodedTrees.NoisyRoundTrip` | src/frontend/protos/demo.ts:2885-2926 | unknown fields put anywhere into an encoded request, at every level: decoding gives the very same request, if and only if every amount is safe |
| `EncodedTrees.RequestSpelled` | src/frontend/protos/demo.ts:2886-2894 | what is encoded is the bytes of the tree of the fields that are set |
| `FieldTrees.TreeAlike` | src/frontend/protos/demo.ts:307-332 | at every level, a tree of fields reads as it does without its unknown ones, and is no shorter |
| `MessageTheorems.OrderResultTagsAreItsSchema` | src/frontend/protos/demo.ts:2765-2806 | the order switch knows a tag if and only if it is one of its five |
| `MessageTheorems.OrderResultIsWellBehaved` | src/frontend/protos/demo.ts:2763-2811 | the order switch tells its fields by the tag alone, never gives bytes back, and is blind to bytes behind what it reads |
| `MessageTheorems.OrderResultRuns` | src/frontend/protos/demo.ts:2739-2813 | an encoded order read onto any partly read order merges into it or, exactly when some `units` is not safe, throws |
| `MessageTheorems.ConfirmationRuns` | src/frontend/protos/demo.ts:2885-2926 | the same for a confirmation request |
| `MessageTheorems.PlaceOrderCarries` | src/frontend/protos/demo.ts:2963-3037 | the same for a place-order request, which never throws |
| `MessageTheorems.MoneyRuns` | src/frontend/protos/demo.ts:2149-2201 | the same for money |
| `MessageTheorems.UnitsRun` | src/frontend/protos/demo.ts:4844-4853 | a written 64-bit integer is read back if and only if it is a safe integer |
| `Wire.VarintInverse` | src/frontend/protos/demo.ts:294-299 | a varint of at most k bytes reads back, leaving the rest |
| `Wire.SignedInverse` | src/frontend/protos/demo.ts:298 | a signed value reads back from its 64-bit two's complement, as 64 bits always and as 32 bits when it fits |
| `Wire.SkipTakesPayloads` | src/frontend/protos/demo.ts:330 | skipping takes the whole of exactly these bytes: a varint, eight bytes, a length with its bytes, four bytes |
| `Wire.ReadersKeepLowBits` | src/frontend/protos/demo.ts:308 | readers of any width take the whole varint and keep the low bits of its value |
| `DecodeLoop.OtherWireTypes` | src/frontend/protos/demo.ts:327-330 | an unknown tag of wire type 4, or the tag zero, ends the message there; one of type 3, 6 or 7 throws |
| `MessageBytes.GuideExamples` | src/frontend/protos/demo.ts:294-299 | the examples of the Encoding guide |
| `MessageBytes.MinusTwo` | src/frontend/protos/demo.ts:298 | its example of a negative number |
| `MessageBytes.ProductBytes` | src/frontend/protos/demo.ts:293-301 | the bytes of a cart item: every field under its number |
| `MessageBytes.CartBytes` | src/frontend/protos/demo.ts:581-589 | the bytes of a cart |
| `MessageBytes.AmountBytes` | src/frontend/protos/demo.ts:2149-2165 | the bytes of money |
| `MessageBytes.PlaceBytes` | src/frontend/protos/demo.ts:2017-2037 | the bytes of an address |
| `MessageBytes.CardBytes` | src/frontend/protos/demo.ts:2391-2410 | the bytes of a credit card |
| `MessageBytes.ItemBytes` | src/frontend/protos/demo.ts:2663-2675 | the bytes of an order item |
| `MessageBytes.OrderBytes` | src/frontend/protos/demo.ts:2740-2757 | the bytes of an order |
| `MessageBytes.RequestBytes` | src/frontend/protos/demo.ts:2886-2894 | the bytes of a confirmation request |
| `MessageBytes.PlaceOrderBytes` | src/frontend/protos/demo.ts:2964-2981 | the bytes of a place-order request, which has no field 4 |
| `MessageBytes.NothingSet` | src/frontend/protos/demo.ts:2740-2757 | a message with nothing set has no bytes |
| `Wire.NegativeTakesTenBytes` | src/frontend/protos/demo.ts:298 | a negative value takes exactly ten bytes |
| `WireIO.Writer.Fork` | src/frontend/protos/demo.ts:2748 | `fork` puts the bytes written so far on the stack and starts an empty buffer |
| `WireIO.Writer.Join` | src/frontend/protos/demo.ts:2748 | `join` takes them back and appends the length and bytes of the child; it throws exactly when the length does not fit 32 bits |
| `WireIO.Writer.Varint` | src/frontend/protos/demo.ts:295 | the writer loop appends exactly the varint of its argument |
| `WireIO.Reader.Varint` | src/frontend/protos/demo.ts:308 | the reader loop, shifting and accumulating, yields and consumes what the recursive varint does, or throws with it |
| `WireIO.Reader.Skip` | src/frontend/protos/demo.ts:330 | skipping moves the reader past one payload of the wire type, or throws |
| `MessageIO.WriteSendOrderConfirmationRequest` | src/frontend/protos/demo.ts:2885-2926 | `encode` of a confirmation request on the writer appends the encoding the theorems speak of and restores the fork stack; it throws exactly when some length does not fit |
| `MessageIO.ReadSendOrderConfirmationRequest` | src/frontend/protos/demo.ts:2885-2926 | `decode` of a confirmation request, the loop on `reader.pos` under `end`, gives the message the decode function gives, stops where it stops and throws when it does |
| `MessageIO.WritePlaceOrderRequest` | src/frontend/protos/demo.ts:2963-3037 | `encode` of a place-order request on the writer appends the encoding the theorems speak of and restores the fork stack; it throws exactly when some length does not fit |
| `MessageIO.ReadPlaceOrderRequest` | src/frontend/protos/demo.ts:2963-3037 | `decode` of a place-order request, the loop on `reader.pos` under `end`, gives the message the decode function gives, stops where it stops and throws when it does |
| `MessageIO.WriteOrderResult` | src/frontend/protos/demo.ts:2739-2813 | `encode` of an order on the writer appends the encoding the theorems speak of and restores the fork stack; it throws exactly when some length does not fit |
| `MessageIO.ReadOrderResult` | src/frontend/protos/demo.ts:2739-2813 | `decode` of an order, the loop on `reader.pos` under `end`, gives the message the decode function gives, stops where it stops and throws when it does |
| `MessageIO.WriteOrderItem` | src/frontend/protos/demo.ts:2663-2704 | `encode` of an order item on the writer appends the encoding the theorems speak of and restores the fork stack; it throws exactly when some length does not fit |
| `MessageIO.ReadOrderItem` | src/frontend/protos/demo.ts:2663-2704 | `decode` of an order item, the loop on `reader.pos` under `end`, gives the message the decode function gives, stops where it stops and throws when it does |
| `MessageIO.WriteCreditCardInfo` | src/frontend/protos/demo.ts:2391-2454 | `encode` of a credit card on the writer appends the encoding the theorems speak of and restores the fork stack; it throws exactly when some length does not fit |
| `MessageIO.ReadCreditCardInfo` | src/frontend/protos/demo.ts:2391-2454 | `decode` of a credit card, the loop on `reader.pos` under `end`, gives the message the decode function gives, stops where it stops and throws when it does |
| `MessageIO.WriteMoney` | src/frontend/protos/demo.ts:2149-2201 | `encode` of money on the writer appends the encoding the theorems speak of and restores the fork stack; it throws exactly when some length does not fit |
| `MessageIO.ReadMoney` | src/frontend/protos/demo.ts:2149-2201 | `decode` of money, the loop on `reader.pos` under `end`, gives the message the decode function gives, stops where it stops and throws when it does |
| `MessageIO.WriteAddress` | src/frontend/protos/demo.ts:2017-2091 | `encode` of an address on the writer appends the encoding the theorems speak of and restores the fork stack; it throws exactly when some length does not fit |
| `MessageIO.ReadAddress` | src/frontend/protos/demo.ts:2017-2091 | `decode` of an address, the loop on `reader.pos` under `end`, gives the message the decode function gives, stops where it stops and throws when it does |
| `MessageIO.WriteCart` | src/frontend/protos/demo.ts:580-621 | `encode` of a cart on the writer appends the encoding the theorems speak of and restores the fork stack; it throws exactly when some length does not fit |
| `MessageIO.ReadCart` | src/frontend/protos/demo.ts:580-621 | `decode` of a cart, the loop on `reader.pos` under `end`, gives the message the decode function gives, stops where it stops and throws when it does |
| `MessageIO.WriteCartItem` | src/frontend/protos/demo.ts:292-333 | `encode` of a cart item on the writer appends the encoding the theorems speak of and restores the fork stack; it throws exactly when some length does not fit |
| `MessageIO.ReadCartItem` | src/frontend/protos/demo.ts:292-333 | `decode` of a cart item, the loop on `reader.pos` under `end`, gives the message the decode function gives, stops where it stops and throws when it does |
| `MessageIO.Resend` | src/frontend/protos/demo.ts:2885-2926 | writing a confirmation request and reading it back with the imperative pair returns the same request if and only if every `units` is safe |
| `PlanningTheorems.QueueIsNewestSinceClear` | src/planning/planning_server.py:64-66 | over every interleaving, both deques hold exactly the last 1000 consumed since the last clear, and never more links than orders |
| `PlanningTheorems.BatchesAreWindows` | src/planning/planning_server.py:166-168 | every batch ever sent is a contiguous, non-empty window of consumption order of at most 1000 |
| `PlanningTheorems.NoOtherWayOut` | src/planning/planning_server.py:144-249 | an order is still queued, or was in an acknowledged batch, or was evicted behind 1000 newer ones with no clear among them, or arrived between the snapshot of an acknowledged call and its clear |
| `PlanningTheorems.GapLosesAnOrder` | src/planning/planning_server.py:231-234 | a run in which an order arriving during a successful call is cleared without having been sent |
| `PlanningDelivery.LostExactly` | src/planning/planning_server.py:144-249 | an order has left the queue in no acknowledged batch if and only if it is in none and came in the gap of an acknowledged call or was evicted |
| `PlanningDelivery.SerialRunsDeliverExactlyOnce` | src/planning/planning_server.py:159-249 | in every run without overlapping calls, acknowledged batches followed by the queue are the consumed sequence if and only if no acknowledged call had lost orders to eviction before its snapshot or to its gap after it, and no more than 1000 were consumed since the last clear |
| `PlanningDelivery.OverlapDeliversTwice` | src/planning/planning_server.py:283-287 | a run in which the initial call and a scheduled one overlap and deliver one order twice |
| `PlanningDelivery.DeliveredAtMostTwice` | src/planning/planning_server.py:159-287 | over every run an order is in at most one acknowledged batch of the scheduler and at most one of the initial call |
| `PlanningDelivery.BatchesCarryNewestLinks` | src/planning/planning_server.py:166-168 | the links of every batch are the newest 1000 consumed between the clear before its snapshot and the snapshot, and never more than its orders |
| `PlanningDelivery.LinkOutlivesItsOrder` | src/planning/planning_server.py:65-66 | a run in which a link is sent after its order was evicted |
| `PlanningTheorems.InitialCallIsMadeOnce` | src/planning/planning_server.py:268-287 | over every interleaving the Kafka thread enters the call at most once, exactly when it has found a queue that was not empty |
| `PlanningTheorems.OrderlyRunsDeliverExactlyOnce` | src/planning/planning_server.py:159-249 | with no overlapping calls, nothing consumed inside a successful call and no backlog over 1000: acknowledged batches followed by the queue are the consumed sequence, across any number of failed calls |
| `PlanningTheorems.StepKeeps` | src/planning/planning_server.py:144-249 | every atomic step keeps the queue, window and loss invariants |
| `PlanningTheorems.NoOverlapAfterInitialCall` | src/planning/planning_server.py:283-287 | once the initial call is over, in no later state is the Kafka thread in a call, so calls no longer overlap |
| `PlanningTheorems.NoCallBeforeTheFirstOrder` | src/planning/planning_server.py:268-287 | before the first order is checked it is in none either |
| `PlanningService.Service.ProcessOrder` | src/planning/planning_server.py:143-147 | appending under the lock is one step of the machine |
| `PlanningService.Service.Push` | src/planning/planning_server.py:65-66 | a bounded `append` keeps the newest 1000, as the machine does |
| `PlanningService.Service.CheckInitial` | src/planning/planning_server.py:284-285 | the test for the first order is one step of the machine and says whether the initial call follows |
| `PlanningService.Service.Snapshot` | src/planning/planning_server.py:166-172 | the first locked section copies both deques and removes nothing; a call is made exactly when there is an order |
| `PlanningService.Service.SchedulerRuns` | src/planning/planning_server.py:315-322 | any number of steps of the scheduler thread leave the consumer and what it consumed alone |
| `PlanningService.Service.Finish` | src/planning/planning_server.py:212-249 | an acknowledgement clears whatever both deques hold by then; an error leaves them alone |
| `PlanningService.Service.CallLambda` | src/planning/planning_server.py:159-249 | a call nothing interrupts sends one batch if there is one, and empties the deques exactly on success |
| `PlanningService.Service.HandleMessage` | src/planning/planning_server.py:281-287 | a message is consumed, with the scheduler running between any two sections; when it is quiet, the message is sent at once exactly when it is the first |
| `PlanningService.Service.KafkaConsumerLoop` | src/planning/planning_server.py:271-287 | over any stream of polls, with the scheduler running between any two sections: the consumed orders grow by exactly the orders polled, in order, and this thread calls at most once; when it is quiet, at the first order |
| `ScenarioController.Controller.Serve` | src/k8s-scenario-controller/main.py:88-117 | a whole run, for any flag values, unreachable reads and exceptions: one pass over all modules for the startup and each poll, then a teardown turn for every module; objects outside every footprint are as they were found; a teardown turn none of whose API calls was refused goes through and leaves none of its objects, so after a shutdown whose calls all succeed no owned object remains |
| `ScenarioController.Controller.SyncFromFlagd` | src/k8s-scenario-controller/main.py:58-75 | a pass handles each module once, in order, each on the objects the one before it left; an unreachable read changes nothing, an exception ends one module only; `previous` records the values read |
| `ScenarioController.Controller.StopAllScenarios` | src/k8s-scenario-controller/main.py:78-85 | teardown handles every module with its default, whatever fails |
| `ScenarioController.Controller.Handle` | src/k8s-scenario-controller/main.py:73-75 | one reconcile is one turn that counts its refused calls; it goes through if and only if none was refused and no setting throws |
| `ScenarioRuns.UnownedNeverChanges` | src/k8s-scenario-controller/main.py:58-75 | over any run of turns, an object outside the footprints of the modules that were read never changes; so an unreachable module keeps its objects |
| `ScenarioRuns.OwnedIsFoundOrDesired` | src/k8s-scenario-controller/main.py:58-85 | after any run with any failures, an object in a footprint is the one found at start or exactly what its module writes |
| `ScenarioRuns.TeardownLeavesNothing` | src/k8s-scenario-controller/modules/base.py:44-46 | a teardown none of whose calls was refused goes through, and what it removed stays removed |
| `ScenarioRuns.CleanPassIsSync` | src/k8s-scenario-controller/main.py:60-73 | a pass in which no call is refused goes through for every module if and only if the pure sync succeeds, with the same effect |
| `ScenarioTheorems.OrderDoesNotMatter` | src/k8s-scenario-controller/main.py:60-73 | two lists of the same modules, in any order, sync to the same namespace, or both fail |
| `ScenarioTheorems.SyncIsIdempotent` | src/k8s-scenario-controller/modules/base.py:48-50 | syncing again with the same flags and pods changes nothing |
| `ScenarioTheorems.SyncReachesEachFootprint` | src/k8s-scenario-controller/main.py:60-73 | a full sync succeeds exactly when each module alone would; it leaves each footprint as that module alone would and everything else untouched |
| `ScenarioTheorems.ReconcileIsIdempotent` | src/k8s-scenario-controller/modules/base.py:48-50 | each module, on or off, from any namespace: a second reconcile gives the same objects |
| `ScenarioTheorems.ReconcileFrames` | src/k8s-scenario-controller/modules/noisy_neighbor.py:69-94 | no module changes an object outside its footprint |
| `ScenarioTheorems.ReconcileIsLocal` | src/k8s-scenario-controller/modules/shell_tester.py:69-103 | what a module does, and whether it throws, depends on its own footprint only |
| `ScenarioTheorems.OffLeavesNothing` | src/k8s-scenario-controller/modules/base.py:44-46 | switched off, a module leaves none of its objects, legacy names included, and never throws by itself |
| `Scenarios.FootprintsAreDisjoint` | src/k8s-scenario-controller/modules/noisy_neighbor.py:30-34 | no object belongs to two modules |
| `ScenarioOutcomes.OnWrites` | src/k8s-scenario-controller/modules/image_pull.py:47-51 | exactly what a module that is on and does not throw leaves: no legacy object; its script as desired; all it wants when its workloads were not right, and its workloads as they were when they were |
| `ScenarioOutcomes.OnMakesItRight` | src/k8s-scenario-controller/modules/noisy_neighbor.py:84-97 | after it the workloads are right by the guard of the module, whatever was there |
| `ScenarioOutcomes.ShellTesterStays` | src/k8s-scenario-controller/modules/shell_tester.py:78-97 | a shell tester that is there is written again if and only if no pod of it is up and there is none or one that failed, ended or keeps crashing; otherwise it is left as it was |
| `ScenarioOutcomes.GuardsOfThePods` | src/k8s-scenario-controller/modules/shell_tester.py:197-222 | what counts as up and as gone, in terms of phases and container states |
| `ScenarioOutcomes.GuardsReadTheFirst` | src/k8s-scenario-controller/modules/noisy_neighbor.py:231-238 | the environment test reads the first variable of the name in the first container, and absent values count as none |
| `ScenarioOutcomes.WrittenDeploymentsSelectTheirPods` | src/k8s-scenario-controller/modules/noisy_neighbor.py:118-228 | every deployment written is labelled as managed and selects the pods it makes; the two that must spread keep away from their own pods |
| `ScenarioOutcomes.SettingsReachTheDeployments` | src/k8s-scenario-controller/modules/resource_management.py:190-282 | the settings reach image, replicas and memory of the deployment written, and a script it mounts is one the module writes |
| `ScenarioController.ReconcileNoisyNeighbor` | src/k8s-scenario-controller/modules/noisy_neighbor.py:69-99 | step by step on a cluster whose every call may throw: it returns if and only if no call was refused and no setting throws, and then the namespace is the pure outcome; if it throws, each object of its footprint is untouched, gone or as desired; the first refused call ends it |
| `ScenarioController.ReconcileImagePull` | src/k8s-scenario-controller/modules/image_pull.py:36-57 | the same for the bad image |
| `ScenarioController.ReconcileResourceManagement` | src/k8s-scenario-controller/modules/resource_management.py:150-174 | the same for the out-of-memory loop |
| `ScenarioController.ReconcileDegradedDeployments` | src/k8s-scenario-controller/modules/degraded_deployments.py:36-56 | the same for the degraded deployment |
| `ScenarioController.ReconcileShellTester` | src/k8s-scenario-controller/modules/shell_tester.py:69-103 | the same for the shell tester, whose pods decide whether it is written again |
| `ScenarioTheorems.OnlySettingsThrow` | src/k8s-scenario-controller/modules/noisy_neighbor.py:80-97 | with API calls that succeed, a module throws if and only if it is on and the number it always reads is not one, or the number for its workload is not one and the workload is not already right |
| `ScenarioController.Cluster.Apply` | src/k8s-scenario-controller/cluster.py:141-152 | create or replace: the object is the given one and no other changed; on an error, which is counted, it may or may not have happened |
| `ScenarioController.Cluster.Delete` | src/k8s-scenario-controller/cluster.py:154-162 | the object is gone and no other changed, absent or not before |
| `ClusterObjects.StampKeepsSelector` | src/k8s-scenario-controller/cluster.py:50-67 | stamping adds the managed-by labels; no other label changes; a selector that matched the pods still does if and only if it asks for no other value of a label stamped on them |
| `CheckoutMoney.SumDomain` | src/checkout/money/money.go:81-109 | for valid same-currency amounts, whenever no 64-bit operation wraps: the sum keeps units*10^9+nanos if and only if the unit sum is non-zero or the nano sum is at least -1147483648; its result is valid if and only if the unit sum is non-zero, the nano sum is zero, or it is at least 10^9 |
| `CheckoutMoney.SumSucceeds` | src/checkout/money/money.go:82-86 | a sum succeeds if and only if both amounts are valid and in one currency, which is then its own |
| `CheckoutMoney.SumMayBeInvalid` | src/checkout/money/money.go:94-103 | 0.40 + 0.40 succeeds with an invalid result |
| `CheckoutMoney.CanonicalIsUnique` | src/checkout/money/money.go:23-31 | a valid non-negative amount is determined by its nanos: one representation for each value |
| `CheckoutMoney.SumOfNonNegatives` | src/checkout/money/money.go:81-109 | the canonical forms of a and b sum to that of a+b, and to a valid amount at all, if and only if a+b is zero or at least one unit |
| `CheckoutMoney.ComputeSum` | src/checkout/money/money.go:81-109 | the source updates of `units` and `nanos`, wrapping at 64 and 32 bits, give the sum the theorems speak of |
| `CheckoutMoney.ComputeMultiplySlow` | src/checkout/money/money.go:113-120 | so does the counting-down loop for the repeated sum |
| `CheckoutMoney.MultiplySlowDomain` | src/checkout/money/money.go:113-120 | n times a canonical amount: exactly n*v, canonical, if n is 1, v is zero or 2v is at least one unit; otherwise it panics or the result is invalid |
| `Checkout.TotalDomain` | src/checkout/main.go:386-393 | for every quantity an int32 holds: shipping plus what the loop charges for each line, canonical and to the nano, exactly when every line multiplies and every running total is zero or at least a unit; otherwise it panics or the total is invalid |
| `Checkout.TotalWithShipping` | src/checkout/main.go:386-393 | with shipping of at least one unit: that total, or a panic exactly when some line is charged more than once at a price between zero and half a unit |
| `CheckoutOrders.TotalIsQuantityTimesPrice` | src/checkout/main.go:386-393 | the total is valid and equals shipping plus the sum of quantity times price if and only if it comes out at all and every line with a price has a quantity of at least one |
| `CheckoutOrders.ZeroQuantityIsCharged` | src/checkout/main.go:391 | 4.99 of shipping and none at 1.00 come to 5.99 |
| `CheckoutOrders.NegativeQuantityIsCharged` | src/checkout/main.go:391 | a quantity of -1 at one unit is charged 2^32-1 times |
| `CheckoutOrders.WholeUnitPricesNeverPanic` | src/checkout/main.go:386-393 | with prices of zero or at least one unit, the order comes out right if and only if shipping is zero or at least one unit |
| `CheckoutOrders.CheapShippingPanics` | src/checkout/main.go:389-392 | shipping of 0.50 and one item at 2.00 panic |
| `CheckoutOrders.CheapItemsPanic` | src/checkout/main.go:391 | two items of 0.40 with shipping of 4.99 panic |
| `CheckoutOrders.CartOrderDoesNotMatter` | src/checkout/main.go:390-393 | with shipping of at least one unit, any permutation of the lines gives the identical units and nanos, or the same panic |
| `CheckoutOrders.EveryCartOrderComesOut` | src/checkout/main.go:390-393 | for any shipping: every permutation comes out right if and only if every line multiplies and shipping is at least one unit, or shipping is zero and every line is charged nothing or at least one unit |
| `CheckoutOrders.CartOrderMayMatter` | src/checkout/main.go:390-393 | without shipping, 1.00 then 0.40 total 1.40, and 0.40 then 1.00 panic |
| `CheckoutOrders.TotalHasOneCurrency` | src/checkout/main.go:386-393 | a total that does not panic was made of valid amounts, all in the currency of the user |
| `Checkout.ComputeTotal` | src/checkout/main.go:386-393 | the loop over the lines gives the total the theorems speak of |
| `Checkout.DiscountIsExact` | src/checkout/main.go:332-346 | for valid money of either sign and every percentage, clamped to 0..100, whenever the product fits 64 bits: a valid amount in the same currency of exactly amount*(100-d)/100 nanos, cut toward zero; so nothing is taken off at zero percent |
| `Checkout.DiscountGrowsWithAmount` | src/checkout/main.go:332-346 | a larger amount never gives a smaller result, whatever the signs |
| `Checkout.DiscountShrinks` | src/checkout/main.go:332-346 | a larger percentage moves the result toward zero, from either side: from the amount itself at zero percent to nothing at a hundred |
| `Checkout.DiscountIsMonotone` | src/checkout/main.go:332-346 | for amounts that are not negative, rounded down; a larger amount with a smaller percentage never gives a smaller result |
| `Checkout.DiscountOfSum` | src/checkout/main.go:413 | discounting a sum of n amounts gives at least the sum of the discounted ones and exceeds it by less than n nanos |
| `PaymentTiming.PlanFailure` | src/payment/charge.js:149-207 | for all draws: four slots, none negative, whose times sum to `totalDurationMs`; each of the first three gives seven tenths to the gateway, rounded down; the first two are the drawn 20 to 50 percent of what is left; the third has at least a quarter of the three-attempt time; the fourth has no backoff, and at least 500 ms if and only if the total is at least 4500 or what is missing to it times one minus the draw is below one millisecond; three attempts take 4000 to 7300 ms if and only if the total is at least 4500 or the draw is zero |
| `PaymentTiming.ThreeAttemptsDomain` | src/payment/charge.js:146-161 | for every total and draw, the promised 4 to 7.3 seconds hold if and only if the total is at least 4500 ms or the draw is zero |
| `PaymentTiming.FourthAttemptDomain` | src/payment/charge.js:158-164 | when the fourth attempt gets the 500 ms meant for it, for every total and draw |
| `PaymentTiming.ThreeAttemptsCanBeTooShort` | src/payment/charge.js:158-161 | a total of 4200 ms gives three attempts of 3850 ms |
| `PaymentTiming.PlanFallback` | src/payment/charge.js:209-242 | for every number of attempts and all draws: the slots sum to `totalDurationMs`; every slot but the last is its geometric share rounded down and gives seven tenths to the gateway; none is negative, none is shorter than the one before, and the last is at least its own geometric share |
| `PaymentTiming.SharesAreGeometric` | src/payment/charge.js:219-223 | each share is one and a half times the one before, and together they are the whole time |
| `PaymentTiming.SharesGrow` | src/payment/charge.js:219-223 | the geometric shares grow with the attempt |
| `PaymentTiming.RandomIntReaches` | src/payment/charge.js:53-55 | every number of the range is drawn, in either order of the bounds |
| `PaymentTiming.RandomIntFollowsTheDraw` | src/payment/charge.js:53-55 | a larger draw never moves back |
| `PaymentTiming.PartBounds` | src/payment/charge.js:174-178 | a part of n is at least a fifth of it, rounded down, and at most half |
| `PaymentTiming.PartReaches` | src/payment/charge.js:174-178 | every part from a fifth to below a half is drawn |
| `PaymentTiming.ThreeAttemptsReaches` | src/payment/charge.js:158-161 | every duration below 7.3 seconds that leaves the fourth attempt more than its 500 ms is drawn |
| `PaymentTiming.RandomInt` | src/payment/charge.js:53-55 | a draw lands in the half-open range, and between the swapped bounds when the range is empty |
| `PaymentRetry.Charge` | src/payment/charge.js:331-592 | with a plan every attempt is refused; without one, for every number of attempts and every stream of answers, the charge is paid if and only if the gateway charges within them, and then at the first such answer; success reports calls-1 retries; exhaustion throws 13; a success counts one transaction and a failure none; the charge span is ended once, and so is the span of an attempt unless a statement after its end threw, when the catch block ends it again and a transaction counted before the throw stays counted; the time waited is the delays and backoffs of the attempts made |
| `PaymentRetry.NothingMiscounted` | src/payment/charge.js:429-434 | no transaction is counted for a failed attempt if and only if no attempt threw after counting its own |
| `PaymentRetry.ChargeVersionB` | src/payment/charge.js:331-592 | version B with a bad token always throws after four attempts and waits exactly the total that was drawn |
| `PaymentRetry.PlanIsSpent` | src/payment/charge.js:355-365 | API delays and backoffs taken along any plan that ends without a backoff add up to the plan |
| `PaymentRetry.PlannedWaits` | src/payment/charge.js:355-365 | with a plan the waits at the gateway and after it are those of its slots, and those of the strategy past its end |
| `PaymentRetry.UnplannedWaits` | src/payment/charge.js:485-491 | without a plan k waits are base*(2^k-1) and the jitter of each |
| `PaymentRetry.ExponentialBackoff` | src/payment/charge.js:485-486 | k unplanned failures without jitter back off base*(2^k-1) in all |
| `PaymentRetry.JitterIsBounded` | src/payment/charge.js:487-491 | jitter adds between zero and k times its maximum |
| `CircuitBreaker.ReachableStates` | src/shop-dc-loadgenerator/shop_load_generator.py:76-84 | in every reachable state the delay is 1.5 to the power of the failures in a row, checks are enabled exactly below ten of them, and the 300 second cap never binds |
| `CircuitBreaker.FieldsFollowTheChecks` | src/shop-dc-loadgenerator/shop_load_generator.py:226-293 | over every run the failures in a row, the time of the last one and whether the next check is made are what the checks alone say: counted since the last 200 reply, or since the breaker closed again |
| `CircuitBreaker.BreakerClosesAgain` | src/shop-dc-loadgenerator/shop_load_generator.py:229-234 | more than 600 seconds after the last failed request the service is always asked, and a 200 reply then closes the breaker |
| `CircuitBreaker.BreakerStaysOpen` | src/shop-dc-loadgenerator/shop_load_generator.py:236-243 | up to then, after ten failures in a row, it is not |
| `CircuitBreaker.TenFailuresOpenIt` | src/shop-dc-loadgenerator/shop_load_generator.py:286-287 | nine failing replies leave the breaker closed and the tenth opens it |
| `CircuitBreaker.FrequentSuccessesKeepItClosed` | src/shop-dc-loadgenerator/shop_load_generator.py:256-259 | with a 200 reply among any ten failing ones the breaker never opens, every check is a request, and the failures in a row are those since the last 200 |
| `CircuitBreaker.FailedRequestsAreBounded` | src/shop-dc-loadgenerator/shop_load_generator.py:226-293 | on a clock that does not go back, E seconds without a 200 reply hold at most 10*(floor(E/600)+1) failed requests, from any reachable state |
| `CircuitBreaker.FailuresComeInGroups` | src/shop-dc-loadgenerator/shop_load_generator.py:228-243 | without a 200 reply, the failures of a run are at most ten for each of a list of times, each more than 600 seconds after the one before and all within the run |
| `CircuitBreaker.CounterCountsFailures` | src/shop-dc-loadgenerator/shop_load_generator.py:279 | the failure counter is the number of requests made that failed |
| `CircuitBreaker.ShopLoadGenerator.CheckTransactionStatus` | src/shop-dc-loadgenerator/shop_load_generator.py:226-275 | one call moves the fields as the state machine does; without a request the report says the breaker is open |
| `CircuitBreaker.ShopLoadGenerator.HandleStatusCheckFailure` | src/shop-dc-loadgenerator/shop_load_generator.py:277-293 | so does one recorded failure |
| `CircuitBreaker.ShopLoadGenerator.constructor` | src/shop-dc-loadgenerator/shop_load_generator.py:76-84 | the fields start in the initial state |
| `UserAttributes.SimpleHash` | src/frontend/utils/userAttributes.ts:18-28 | the loop returns the absolute value, as 32 signed bits, of the polynomial of the character codes in 31, at most 2^31 |
| `UserAttributes.PolynomialWeights` | src/frontend/utils/userAttributes.ts:21-25 | the first of n characters weighs 31^(n-1) |
| `UserAttributes.HashOfConcat` | src/frontend/utils/userAttributes.ts:21-25 | the hash of a concatenation follows from the two hashes and the length of the second |
| `UserAttributes.LcgIsExact` | src/frontend/utils/userAttributes.ts:44-51 | no intermediate value reaches 2^53, so the double arithmetic of the generator and of its scaling loses nothing |
| `UserAttributes.LcgIsInjective` | src/frontend/utils/userAttributes.ts:50 | two states with the same successor are the same state |
| `UserAttributes.LcgUndone` | src/frontend/utils/userAttributes.ts:50 | the step has an explicit inverse on [0, 2^32) |
| `UserAttributes.SeededRandom.Random` | src/frontend/utils/userAttributes.ts:44-52 | one step of the generator: the state stays in [0, 2^32) and the number in [0, 1) |
| `UserAttributes.SeededRandom.RandomInt` | src/frontend/utils/userAttributes.ts:57-59 | one step, and an integer between both bounds, given in integer arithmetic |
| `UserAttributes.ScaleFloor` | src/frontend/utils/userAttributes.ts:58 | the floor of the scaled fraction is an integer division |
| `UserAttributes.UserThresholds` | src/frontend/utils/userAttributes.ts:74-96 | role and id as integer thresholds on the two states after the hash |
| `UserAttributes.EmptySessionUser` | src/frontend/utils/userAttributes.ts:69-97 | the empty session is member 2393 |
| `UserAttributes.HashOfAb` | src/frontend/utils/userAttributes.ts:18-28 | "ab" hashes to 3105, as in Java |
| `UserAttributes.RandomUser` | src/frontend/utils/userAttributes.ts:69-97 | the user is a function of the hash of the session alone, and the id always belongs to the set of its role |
| `Currency.DigitAmountDomain` | src/currency/src/server.cpp:144-156 | the digit loop reads the true amount if and only if nanos is zero or 10^8 <= |nanos| < 10^9 |
| `Currency.GetDouble` | src/currency/src/server.cpp:144-156 | the loop yields units + nanos/10^digits(|nanos|) |
| `Currency.OneOhFiveIsReadAsOneAndAHalf` | src/currency/src/server.cpp:149-153 | 1.05 is read as 1.5 |
| `Currency.PackedInverts` | src/currency/src/server.cpp:158-164 | packing what the digit loop read returns the valid amount itself if and only if nanos is zero or |nanos| >= 10^8 |
| `Currency.GetUnitsAndNanos` | src/currency/src/server.cpp:158-164 | for every value whose whole part fits 64 bits: valid money, within one nano of the value, toward zero |
| `Currency.Convert` | src/currency/src/server.cpp:191-203 | the converted amount is valid money within one nano of the exact conversion of what was read, and zero for an unknown target code |
| `Currency.ConversionScales` | src/currency/src/server.cpp:195-201 | the conversion is proportional to the target rate and inversely to that of the source, and the way back undoes it |
| `Currency.SameCurrencyKeepsTheAmount` | src/currency/src/server.cpp:193-203 | converting between currencies of one rate returns the same amount if and only if nanos is zero or |nanos| >= 10^8 |

## Left out

- UTF-8: a string is the sequence of its bytes, so invalid text is not rejected.
- Wire types 3, 4, 6 and 7: skipping a field of one of them throws, as does a varint over ten bytes; groups are not parsed.
- Integers a JavaScript number holds beyond 32 bits in `quantity`, `nanos` and the card fields: they have the type the schema gives them, where the writer would throw.
- `units` as a double: it is a 64-bit integer here, so fractions and values beyond 64 bits are not modelled.
- Other messages of `demo.ts`, JSON conversion, `create` and `fromPartial`: the same loop, or structural and easier.
- MessageIO.Resend: requires that lengths fit, where `encode` would throw; the write methods state that error.
- A Kafka record that cannot be parsed ends the Kafka thread, and an unset endpoint makes every call return at once: runs in which those events no longer occur, so nothing is stated about them apart.
- PlanningService.Service.KafkaConsumerLoop: the scheduler runs between the sections that hold the lock and the unlocked test; what happens within one of them is one step.
- MessageTheorems.OrderResultToleratesUnknownFields: unknown fields whose own payload is malformed make the loop throw, and nothing more is said of them.
- Kubernetes resource versions, asynchronous deletion, the pod scheduler and probes: an object is its labels and spec, and pods are given to a pass.
- Script texts, mounts, requests and affinity terms of the bodies: abbreviated to what the guards read and to names, image, environment, replicas, memory limit and selector.
- Flag values: reduced to what `bool()` makes of them.
- A run of the controller is a finite list of polls, each with one reading of the pods, and `previous`, which only decides what is logged, is stated for single passes.
- CheckoutMoney.SumDomain: unit sums that overflow 64 bits are left to wrap in `Sum` and nothing is stated of them.
- FieldTrees.UnknownFieldsAtEveryLevel: for confirmation requests and what they hold; carts and place-order requests have theorems for their own level only.
- Currency.GetUnitsAndNanos: requires a whole part that fits 64 bits, where the conversion to `long` is defined.
- Currency.Convert: requires a source rate above zero; an unknown source code divides by zero, and converting the result to `long` is undefined.
- PaymentRetry.Charge: begins where the source enters its `try` block. The charge span is opened before that (line 258 of charge.js), and a throw from the flag provider or the card check in between never ends it.
- Floating-point rounding in draws, powers, backoff and conversion.
- PaymentTiming.PlanFallback: exact reals, where the source sums powers of 1.5 as doubles.
- The breaker with concurrent calls, and `time.sleep` between its steps: a call is one transition with the clock read on entry and at the failure.
- Spans except the ended-once count, logs, metrics, baggage, gRPC, HTTP, Kafka and database calls.
- Probabilities: role percentages, flag rates and promo redemption are arbitrary choices.
