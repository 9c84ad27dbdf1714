# Task broker, Lucas-Lehmer arithmetic and route decisions of MakeComputingGridAgain

MakeComputingGridAgain is a volunteer-computing site. The server hands out
Mersenne exponents as tasks through a small broker, and the browser extension
checks each exponent with the Lucas-Lehmer test. This project models three
parts of it and proves properties of the model:

- **The broker** (`node/TaskBroker.js`), written as pure functions over two
  lists. The message queue holds tasks waiting to be handed out. The dequeued
  list holds leased tasks, each with an expiry 60 000 ms after the lease.
  - Linked-list nodes are sequence elements, and the head is index 0.
  - A node whose task was nulled stays in the model as a node without a task.
  - A JavaScript exception becomes an abrupt completion. It carries the state
    the lists had reached when the exception was thrown.
- **A repaired broker** (module `Broker`), over a queue of ready tasks and a
  list of leases.
  - A refinement relation (`BrokerRefinement.Represents`) links it to the
    broker as written.
  - The model proves where the two agree, and shows the exact call sequences
    where they part.
- **The Mersenne arithmetic** of the two `llt.js` files:
  - BigInt division truncates toward zero, and Dafny's does not, so it is
    written out explicitly.
  - Newton's integer square root, trial-division `isPrime`, the Lucas-Lehmer
    loop and the Euclid-Euler perfect number.
  - The `realLLT` result object and the page script's odd-exponent scan.
  - Each is tied to an independent reference: the floor square root, primality
    by divisors, and the Lucas sequence over the integers.
- **The decisions of `node/router.js`:**
  - the `/getUserProfile` replies and points;
  - the `/api/requestTask` replies;
  - the field, duplicate, email-regex and password-regex checks of
    registration;
  - bearer-token extraction in `authenticateToken`.

  Each regular expression is proved equal to a plain description of the
  strings it accepts.

Files:

| file | contents |
|---|---|
| `wrappers.dfy` | `Option`, and `Result` with a thrown case |
| `js_numbers.dfy` | truncating BigInt `/` and `%`, `1n << k`, `>> 1n` |
| `arithmetic.dfy` | helper facts on congruences and products |
| `newton_sqrt.dfy` | `newtonRaphsonMethod` and `sqrt`, plus the repaired square root |
| `primality.dfy` | `isEven` and `isPrime` |
| `lucas_lehmer.dfy` | `isMersennePrime` (both copies), `calculatePerfectNumber`, `realLLT`, the scan |
| `llt_examples.dfy` | the cases of the Lucas-Lehmer test suite, on the model |
| `task_broker.dfy` | the broker as written |
| `task_broker_properties.dfy` | what the broker as written keeps, and where it breaks |
| `broker.dfy`, `broker_properties.dfy` | the repaired broker and its properties |
| `broker_refinement.dfy` | the correspondence between the two brokers |
| `users.dfy` | the entry of the `users` array both the profile and the registration routes read |
| `strings.dfy` | request-field truthiness, `split`, and the `IndexOf` helper behind it and the email shape |
| `auth.dfy`, `profile.dfy`, `request_task.dfy`, `registration.dfy` | the router's decisions |

## Model

| member | source | states |
|---|---|---|
| JsNumbers.Quot | node/PublicResources/extension/llt.js:3 | BigInt division truncates toward zero for divisors of either sign: the remainder left over is smaller in magnitude than the divisor and never has the opposite sign to the dividend |
| JsNumbers.Rem | node/PublicResources/extension/llt.js:52 | BigInt `%` is the truncating remainder. The dividend is quotient times divisor plus remainder. The remainder is smaller in magnitude than the divisor and takes the dividend's sign. |
| JsNumbers.OneShiftedLeft | node/PublicResources/extension/llt.js:39 | `1n << k` is 2^k for k >= 0, and 0 for a negative k (a right shift) |
| JsNumbers.HalfDown | node/PublicResources/extension/llt.js:3 | `>> 1n` halves and rounds toward minus infinity |
| NewtonSqrt.StepFacts | node/PublicResources/extension/llt.js:3 | One Newton step never falls below the floor square root. It strictly decreases a guess above the root, and moves a guess at the root by at most one. |
| NewtonSqrt.NewtonRaphson | node/PublicResources/extension/llt.js:2-8 | From a guess at or above the root, the recursion returns the floor square root. From a guess below it, it returns either the root or the guess itself. |
| NewtonSqrt.NewtonFromOne | node/PublicResources/scripts/llt.js:3-9 | Started at 1, the recursion returns the floor square root of every n >= 1 except 4 |
| NewtonSqrt.Sqrt | node/PublicResources/extension/llt.js:10-17 | throws exactly for negative values; returns 0 and 1 unchanged; returns the floor square root exactly when the value is not 4 |
| NewtonSqrt.SqrtOfFourIsOne | node/PublicResources/scripts/llt.js:11-20 | sqrt(4) returns 1, while the floor square root of 4 is 2 |
| NewtonSqrt.SqrtFromAbove | node/PublicResources/extension/llt.js:10-17 | the repaired sqrt throws exactly for negative values and otherwise returns the floor square root |
| NewtonSqrt.SqrtAgreesAwayFromFour | node/PublicResources/extension/llt.js:16 | the written and the repaired sqrt give the same result exactly when the value is not 4 |
| Primality.IsEven | node/PublicResources/extension/llt.js:19-21 | `number % 2n === 0n` holds exactly when the number is even, negative numbers included |
| Primality.NoOddDivisorFrom | node/PublicResources/extension/llt.js:30-33 | the trial-division loop from odd i succeeds exactly when no odd d with i <= d <= root divides p |
| Primality.IsPrimeCorrect | node/PublicResources/extension/llt.js:23-36 | isPrime(p) holds exactly when p is prime (p >= 2 and no divisor strictly between 1 and p), for every integer p |
| LucasLehmer.LucasLoop | node/PublicResources/extension/llt.js:51-53 | Without an iteration the loop leaves s unchanged. After any iteration, s is smaller in magnitude than the modulus. |
| LucasLehmer.LucasLoopResidue | node/PublicResources/extension/llt.js:50-53 | The loop keeps s congruent, modulo M_p, to the term of the Lucas sequence 4, 14, 194, ... with the same index. It ends congruent to term p - 2. |
| LucasLehmer.LucasLoopDecides | node/PublicResources/extension/llt.js:49-54 | for p >= 3 the loop ends at 0 exactly when 2^p - 1 divides the (p - 2)-th Lucas term |
| LucasLehmer.IsMersennePrime | node/PublicResources/extension/llt.js:42-56 | isMersennePrime(p) holds exactly when p is prime and either p = 2 or 2^p - 1 divides the (p - 2)-th Lucas term |
| LucasLehmer.ScriptIsMersennePrime | node/PublicResources/scripts/llt.js:59-70 | The page script's copy has no primality check. Below 3 it accepts only 2. From 3 up it accepts exactly when the Lucas term vanishes modulo 2^p - 1. |
| LucasLehmer.ScriptAgreesOnPrimes | node/PublicResources/scripts/llt.js:77 | on the prime exponents the scan passes to it, the script's copy agrees with the extension's |
| LucasLehmer.ScriptExponentOne | node/PublicResources/scripts/llt.js:59-70 | for exponent 1 the modulus is 1, the loop does not run, and the answer is false |
| LucasLehmer.PerfectNumber | node/PublicResources/extension/llt.js:38-40 | Equals (2^p - 1) * 2^(p-1) for p >= 1 and is even for p >= 2. It is 1 for p = 1 and 0 for p <= 0, where the shifts degenerate. |
| LucasLehmer.RealLlt | node/PublicResources/extension/llt.js:61-100 | The result records the exponent and the user, with no task id. `isMersennePrime` is the mathematical criterion. `perfectIsEven` is set exactly when that criterion holds, and is never false. Points are 10000 for a Mersenne prime and 10 otherwise. |
| LucasLehmer.OddScan | node/PublicResources/scripts/llt.js:76-80 | the scan reports exactly the odd exponents between its start and the bound that pass the test |
| LucasLehmer.OddScanIncreasing | node/PublicResources/scripts/llt.js:76 | the scan reports exponents in strictly increasing order |
| LucasLehmer.ScanReportsMeaning | node/PublicResources/scripts/llt.js:77 | for x >= 3 the scan's test holds exactly when x is prime and its Lucas term vanishes modulo 2^x - 1 |
| LucasLehmer.ScanReport | node/PublicResources/scripts/llt.js:72-80 | The page lists 2 first and then, in increasing order, exactly the primes 3 <= x <= bound for which 2^x - 1 passes the Lucas-Lehmer test |
| LltExamples.ParityExamples | tests/llt.test.js:25-34 | isEven on 4, 0, -2, 3 and -1 |
| LltExamples.PrimeExamples | tests/llt.test.js:37-58 | isPrime on 2, 3, 5, 7 (true) and 1, 0, -5, 4, 100, 9, 15 (false) |
| LltExamples.SqrtExamples | tests/llt.test.js:61-79 | sqrt of 0, 1, 9, 16, 2, 3, 5, 8, 10, and the throw for -1 |
| LltExamples.LargeSqrtExample | tests/llt.test.js:68 | sqrt(123456789) is 11111 |
| LltExamples.NewtonExamples | tests/llt.test.js:82-90 | newtonRaphsonMethod from 1 on 9, 16 and 10 |
| LltExamples.PerfectNumberExamples | tests/llt.test.js:92-101 | the perfect numbers 6, 28 and 496 for p = 2, 3, 5 |
| LltExamples.MersenneExamples | tests/llt.test.js:104-119 | isMersennePrime on 4, 6 and 11 (false) and 2, 3, 5, 7 (true) |
| LltExamples.RealLltExamples | tests/llt.test.js:122-161 | realLLT on 3, 2, 4 and 20 |
| TaskBroker.Enqueue | node/TaskBroker.js:32-43 | Appends one fresh node at the tail and leaves the earlier nodes unchanged. The live tasks gain the task at the end, and the id bag gains its id. |
| TaskBroker.Dequeue | node/TaskBroker.js:46-74 | On an empty queue: null, and nothing changes. Otherwise a node with the head's task and an expiry 60 000 ms after `now` joins the tail of the dequeued list. The head moves on, except for a lone node, which stays with its task nulled. It throws exactly when the head holds no task, and its value is never truthy. |
| TaskBroker.Acknowledge | node/TaskBroker.js:78-114 | An empty list gives null. If the search reaches the id, the result is true and the first node with it is removed. If it meets a nulled node first, it throws. Otherwise false, and the list is unchanged. |
| TaskBroker.Requeue | node/TaskBroker.js:118-155 | A reached lease moves to the head of the message queue and the result is true. Into an empty queue it is unlinked and the call throws. A nulled node met first makes it throw. A missing id gives false, and nothing changes. |
| TaskBroker.LocateMeaning | node/TaskBroker.js:84-110 | The search loop finds a node exactly when the id is reached before any nulled node, and meets a nulled node exactly when the task field it reads is null. Unlinking the found node removes the first node with the id. |
| TaskBroker.Unlink | node/TaskBroker.js:87-103 | each of the four unlink cases removes exactly the target position and keeps the order of the rest |
| TaskBrokerProperties.DequeueKeepsIds | node/TaskBroker.js:46-74 | dequeue, normal or throwing, keeps the bag of task ids held across both lists |
| TaskBrokerProperties.AcknowledgeIds | node/TaskBroker.js:78-114 | an acknowledge answering true removes exactly one copy of the id, which was held; any other outcome leaves the list as it was |
| TaskBrokerProperties.RequeueKeepsIds | node/TaskBroker.js:118-155 | a requeue that completes keeps the bag of held ids |
| TaskBrokerProperties.OperationsKeepUnique | node/TaskBroker.js:46-155 | dequeue, acknowledge and requeue never make an id held twice |
| TaskBrokerProperties.EnqueueFreshKeepsUnique | node/TaskBroker.js:32-43 | enqueueing a task with a fresh id keeps every id held at most once |
| TaskBrokerProperties.DequeueThenAcknowledge | node/TaskBroker.js:46-114 | with unique ids and no nulled leases, acknowledging the task just dequeued answers true, restores the dequeued list, and leaves that id nowhere |
| TaskBrokerProperties.NullSlotBlocksLaterAcknowledge | node/TaskBroker.js:85-86 | a nulled lease in the dequeued list makes acknowledge throw for every id that only occurs after it |
| TaskBrokerProperties.DrainInOrder | node/TaskBroker.js:46-74 | n dequeues of n task-holding nodes append their leases in queue order and leave the last node behind with its task nulled |
| TaskBrokerProperties.EnqueueThenDrain | node/TaskBroker.js:32-74 | enqueueing tasks onto an empty queue and dequeueing as many times leases exactly those tasks, in order, all with the same expiry, and leaves one nulled node |
| TaskBrokerProperties.DequeueOfTwo | tests/taskbroker.test.js:21-38 | after two enqueues and a dequeue, the second task is the head of the message queue and the first is the tail of the dequeued list |
| TaskBrokerProperties.PhantomScenario | node/TaskBroker.js:55-58 | Enqueue t1, dequeue, enqueue t2, dequeue: the second dequeue leases the nulled node and throws. Once t2 is dequeued too, acknowledging t2 throws and acknowledging t1 does not. |
| TaskBrokerProperties.RequeueIntoEmptyLosesTask | node/TaskBroker.js:141-144 | requeueing a reached lease into an empty message queue throws after unlinking it, so the id is no longer held anywhere |
| Broker.Enqueue | node/TaskBroker.js:32-43 | appends the task to the ready queue, keeps the leases, and adds its id to the bag |
| Broker.Dequeue | node/TaskBroker.js:46-74 | Hands out exactly the head of the ready queue and leases it until `now` + 60 000. With no ready task it hands out nothing and changes nothing. The bag of ids is unchanged. |
| Broker.Find | node/TaskBroker.js:84-110 | finds a lease exactly when the id is leased, and then the first such lease |
| Broker.Acknowledge | node/TaskBroker.js:78-114 | Succeeds exactly when the id is leased, and then removes its first lease and that one id. Otherwise nothing changes. |
| Broker.Requeue | node/TaskBroker.js:118-155 | Succeeds exactly when the id is leased, and then moves its first lease's task to the head of the ready queue, keeping the bag of ids. Otherwise nothing changes. |
| BrokerProperties.OperationsKeepUnique | node/TaskBroker.js:32-155 | every repaired operation keeps ids unique (enqueue when the id is fresh) |
| BrokerProperties.DequeueThenAcknowledge | node/TaskBroker.js:46-114 | acknowledging the task just dequeued succeeds and leaves the leases as they were |
| BrokerProperties.DequeueThenRequeue | node/TaskBroker.js:46-155 | requeueing the task just dequeued restores the state exactly |
| BrokerProperties.AcknowledgeOnce | node/TaskBroker.js:78-114 | with unique ids, once an acknowledge of an id succeeds, a second one of the same id fails |
| BrokerProperties.RequeueThenDequeue | node/TaskBroker.js:118-155 | a requeued task is the next one handed out |
| BrokerProperties.DrainInOrder | node/TaskBroker.js:46-74 | dequeueing until empty hands out the ready tasks in order and appends their leases |
| BrokerProperties.EnqueueThenDrain | node/TaskBroker.js:32-74 | tasks enqueued onto an empty broker come out in the order they went in |
| BrokerProperties.RepairedScenario | node/TaskBroker.js:55-58 | with the repaired broker, the sequence that strands a task hands out both tasks and both can be acknowledged |
| BrokerRefinement.SearchLeases | node/TaskBroker.js:84-110 | On the lists of a repaired state the search never meets a nulled node, and reaches the id exactly when it is leased. It then unlinks the repaired broker's first lease on it. |
| BrokerRefinement.EnqueueRefines | node/TaskBroker.js:32-43 | enqueue keeps the correspondence between the two brokers |
| BrokerRefinement.DequeueRefines | node/TaskBroker.js:46-74 | while the head holds a task, dequeue completes, answers null exactly when the repaired broker hands out nothing, and keeps the correspondence |
| BrokerRefinement.AcknowledgeRefines | node/TaskBroker.js:78-114 | acknowledge completes, agrees with the repaired answer, and keeps the correspondence |
| BrokerRefinement.RequeueRefines | node/TaskBroker.js:118-155 | requeue completes, agrees, and keeps the correspondence unless it moves a lease into an empty message queue |
| BrokerRefinement.NullHeadDiverges | node/TaskBroker.js:52-73 | at a nulled head the written dequeue throws and puts a nulled lease into the dequeued list, while the repaired one hands out the next ready task when there is one and nothing otherwise |
| BrokerRefinement.StrandedStateRepresented | node/TaskBroker.js:55-58 | after enqueue, dequeue, enqueue, the written lists correspond to a repaired state with one ready task, yet their head is the nulled node |
| BrokerRefinement.RequeueIntoEmptyDiverges | node/TaskBroker.js:141-144 | Requeue into an empty message queue: the written broker throws and loses the id, while the repaired one puts the task first and keeps every id |
| Strings.Split | node/router.js:269 | the fields contain no separator and joined with it give back the string |
| Strings.JoinSplit | node/router.js:269 | splitting the join of separator-free fields gives back the fields |
| Auth.BearerToken | node/router.js:268-269 | a missing or empty header gives no token; a token is non-empty and contains no space |
| Auth.BearerTokenMeaning | node/router.js:269 | the token is t exactly when t is non-empty and the header is a space-free scheme, one space, t, and then nothing or a space |
| Auth.Authenticate | node/router.js:267-283 | 401 exactly when there is no token, 403 exactly when there is one the signature check rejects, otherwise `next` with that token |
| Auth.WellFormedHeader | node/router.js:268-273 | a header "scheme token" with a non-empty, space-free token is never refused with 401 |
| Profile.FindUser | node/router.js:47 | finds a user exactly when one has the name, and then the first one in the list: no earlier user has the name |
| Profile.UserTasks | node/router.js:50 | a task is kept exactly when it is in the list and belongs to the user |
| Profile.UserTasksOfOne | node/router.js:50 | a single task is kept exactly when its owner is the user |
| Profile.UserTasksConcat | node/router.js:50 | the filter distributes over concatenation, so with the single-task case it keeps the user's tasks in their order and with their multiplicity |
| Profile.PointsAdditive | node/router.js:51-52 | points add up over any split of the task list |
| Profile.PointsOfOne | node/router.js:51-52 | a single task is worth 10 points exactly when it is the user's and its status is "Completed" |
| Profile.GetUserProfile | node/router.js:41-65 | 400 exactly without a username; 404 exactly when no user has it; otherwise the name and email of the first user with that name, exactly the filtered tasks in their original order, and a multiple of 10 points bounded by ten per task |
| RequestTask.RequestTask | node/router.js:79-89 | over the written broker the route answers 400 whenever it does not throw, even when a task was leased |
| RequestTask.RequestTaskRepaired | node/router.js:79-89 | over the repaired broker it answers 400 exactly when nothing is ready, and otherwise 200 with the task it leased |
| RequestTask.RequestTaskDiverges | node/router.js:80-88 | on corresponding states, both routes lease the same task, but only the repaired one answers 200 with it |
| Registration.EmailPatternMeaning | node/router.js:247-248 | The email regex accepts exactly the strings with no whitespace and exactly one '@', which is not first. After the '@' must come a '.' that has a character on each side. |
| Registration.PasswordPatternMeaning | node/router.js:252-253 | the password regex accepts exactly the ASCII-alphanumeric strings of length at least 6 with a lower-case letter, an upper-case letter and a digit |
| Registration.Register | node/router.js:233-261 | Each reply is characterised exactly by the checks in order: the fields, a taken username, a taken email, the email shape, then the password rule. It answers 201 exactly when all pass, and never 500. |
| Registration.RegisterAwaited | node/router.js:257-261 | with the store awaited, 500 exactly when every check passes and the store fails; otherwise the same reply |
| Registration.RegisteredUsernameRefused | node/router.js:239-241 | a username already on record is refused with 409 whatever the other fields |
| Registration.AcceptanceSurvivesFewerUsers | node/router.js:239-245 | a registration accepted against some users is accepted against any subset of them |

## Left out

- Logging (`console.log`) and the broker's `print` write only to the console and are not modelled. The one log line that matters, at node/TaskBroker.js:73, is modelled by the exception it throws on a nulled node.
- `Date.now()` is the parameter `now`, and `localStorage.getItem('username')` is the parameter `username`. `realLLT`'s timer only feeds log lines.
- The JWT signature check in `authenticateToken` is the parameter `valid`. Whatever `jwt.verify` attaches to the request is not modelled.
- File serving, the static-file route, request-body streaming and `JSON.parse` are I/O. Registration takes the three fields as already parsed; non-string field values are not modelled.
- The routes for login, `clientTaskDone` and `/api/users-tasks`, and the database layer, are not part of this model.
- `registerUserToDB` is the parameter `stored` of `RegisterAwaited`. The call at node/router.js:257 passes username and email in the opposite order to its parameters (email, username). Only the stored row is affected, and the database is not modelled.
- node/router.js:6 imports `messageQueue` and `dqList`, which node/TaskBroker.js does not export. The model passes the two lists explicitly.
- The page script's bound (5000, at node/PublicResources/scripts/llt.js:72) is the parameter `upperBound` of `ScanReport`; the model states the scan for every bound.
- The sqrt and isPrime copies in the two llt.js files are identical apart from layout, and are modelled once.
- A task's data is an integer, as in the broker's tests. The broker never inspects it.
- Strings are sequences of Unicode scalar values, not UTF-16 code units. The whitespace class `\s` is the ECMAScript set, written out character by character.
- LucasLehmer.LucasLoop: its contract bounds the result and relates it to the Lucas sequence through `LucasLoopResidue`. It does not give the value of each intermediate `s`.
- Registration.RegisterAwaited: `stored` models a store that reports its outcome. `registerUserToDB` (node/DatabaseOperation.js:17-43) returns nothing and only logs failures inside callbacks, so awaiting it as written would resolve to undefined, which is falsy, so every admissible registration would get 500; the model states what the route evidently intends, not what an awaited call to the current store would do.
- Profile.GetUserProfile: `tasks` holds only the fields the route reads (owner, status, exponent). The rest of a task record passes through unchanged and is not modelled.

## Findings

| source | as written | input that shows it | evidently intended | confidence | as-written member | corrected member |
|---|---|---|---|---|---|---|
| node/PublicResources/extension/llt.js:10-17 | Newton's iteration starts at 1. For 4 the next guess is 2, and the stop test `x0 === x1 - 1n` fires on the guess 1, so sqrt returns 1. The copy at node/PublicResources/scripts/llt.js:11-20 is the same. | `sqrt(4n)` | 2, the floor square root, as tests/llt.test.js:65 expects. Starting the iteration at the value itself gives the floor square root for every input. `isPrime` never reaches sqrt(4) because 4 is even. | not executed | NewtonSqrt.SqrtOfFourIsOne | NewtonSqrt.SqrtFromAbove |
| node/TaskBroker.js:55-58 | Dequeuing the only node keeps it with its task nulled. Tasks enqueued later queue up behind it. The next dequeue leases the nulled node and throws at node/TaskBroker.js:73. | enqueue t1, dequeue, enqueue t2, dequeue | the second dequeue hands out t2 | not executed | TaskBrokerProperties.PhantomScenario | BrokerProperties.RepairedScenario |
| node/TaskBroker.js:46-74 | `dequeue` returns nothing after leasing a task, so the `!newTask` test at node/router.js:83 always holds and `/api/requestTask` answers 400 | a request while a task is queued | dequeue returns the leased task, and the route answers 200 with it | not executed | RequestTask.RequestTask | RequestTask.RequestTaskRepaired |
| node/TaskBroker.js:141-144 | Requeue unlinks the lease first and then writes through `mq.head`. That is undefined for a message queue that never held a node, so the call throws with the task in neither list. | requeue of a leased id into a fresh message queue | the task becomes the only node of the message queue | not executed | TaskBrokerProperties.RequeueIntoEmptyLosesTask | Broker.Requeue |
| node/router.js:257-261 | `registerUserToDB` is async (node/DatabaseOperation.js:17-43). The promise it returns is truthy, so the 500 branch can never be taken. | an admissible registration whose database insert fails | a store that reports success or failure, awaited, with 500 on failure | not executed | Registration.Register | Registration.RegisterAwaited |
