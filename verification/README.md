# eSE manager: a verified model

The eSE manager lets Android processes share one embedded secure element. This project models, in
Dafny, the parts of it whose behaviour spans many calls, and proves properties of every run of them.

| file | what it models |
|---|---|
| `SecureElement.dfy` | the chip's status word and the driver's power calls |
| `PowerManager.dfy` | the power manager daemon: `Step` defines each call on values, the class `ESEPowerManager` performs it in place |
| `PowerReplies.dfy` | the reply and the effect of each daemon call at the end of any run |
| `PowerRuns.dfy` | whole runs of the daemon: safety, order of the power calls, stranded power, conservation of references, death links |
| `Clients.dfy` | any number of processes and threads running powerOn, getEseCplc, powerOff against the daemon |
| `ClientRounds.dfy` | how many rounds the threads make in a run, and what rounds make of the daemon |
| `IntrusiveList.dfy`, `ManyLists.dfy` | the circular doubly linked list of the TEE client header, one list and many lists in one heap |
| `EsePort.dfy`, `EseFrames.dfy` | the two SPI block readers and the command retry loop |
| `NciExchange.dfy` | the NCI credit and data exchange over a reused buffer |
| `TeeSession.dfy` | the TEE client session with its staged cleanup, and its return code |
| `CplcDelivery.dfy` | service, stub, parcel, proxy and native methods, run inside powerOn and powerOff |
| `HexCodec.dfy` | the hex parser and printer |

## Assumptions

- One daemon call is one atomic step, because `onTransact` holds a mutex (esepmdaemon/BneSEPowerManager.cpp:19-20).
  `binderDied` does not take that mutex (esepmdaemon/eSEPowerManager.cpp:353-377) and is taken as atomic too.
- Every return value the kernel, binder, the fingerprint CA or the TEE chooses is a parameter (`Outcome`,
  `TeeOutcome`), so each statement holds for all of them. A negative ioctl or open is a failure and changes nothing.
- Only the daemon changes the SPI bit, nobody sets the SPI_PRIO bit, pids are not reused, and the daemon starts with the
  chip off and the node closed. Downloads start and stop at any time.
- The status word is a C int; a mask test on it is written bit by bit, with division and remainder.
- A pid keeps its uid. A dead process takes no further step; the daemon learns of a death some time later.
- On success the trusted application writes at most as many bytes as it was given room for. Releasing a memory block that
  was never allocated does nothing.

## Where the obvious claim is false

- "The chip is off whenever nobody is registered": a failed death link, a download, a failed status read or a failed cut
  strands the power. `FailedLinkStrandsTheChip` is one such run, `OrphanExactly` gives the exact condition for every run,
  `OneClientRecoversAnOrphan` shows one way out.
- "Power calls alternate": killall can cut power that is off, as in `KillAllBreaksAlternation`. `AlternationExactly`
  gives the exact condition.
- "A registered pid is watched for death": powerOff unlinks the stored notifier even when references remain,
  as in `AClientCanGoUnwatched`. `StoredLinkExactly` gives the exact condition. `ADeathCanGoUnnoticed` and
  `UnwatchedDeathKeepsThePower` say what follows for the chip if no other notifier fires.
- "A failing TEE call returns a negative code": `0 - result` is positive for all codes above 0x80000000, which includes
  every TEEC error, as in `BadParametersLooksLikeSuccess`; `MaskedExactly` is the condition. `GetCplcArray` then hands Java
  a hundred zero bytes instead of null, while `ValidateChipLegality` still says no.
- "list_pop takes a list node": on an empty list it poisons the sentinel; `ListPop` and `ListPopTail` say so.

## Model

| member | source | states |
|---|---|---|
| SecureElement.StatusWord | esepmdaemon/pn553.h:97-111 | bits 10, 11 and 12 of the status word are exactly SPI, DWNLD and SPI_PRIO, and all other bits are the driver's |
| SecureElement.ReadStatus | esepmdaemon/eSEPowerManager.cpp:254-256 | a failed status read leaves -1, which passes for powered and for downloading |
| SecureElement.Driver.SetPower | esepmdaemon/p73.h:21-27 | a successful P61_SET_SPM_PWR moves the SPI bit and nothing else, a failed one nothing; each is logged with who was registered |
| PowerManager.StepKeepsInv | esepmdaemon/eSEPowerManager.cpp:105-377 | every call, death and download keeps: a registered pid has power and an open node, a closed node means off, every count is at least 1; the out-of-sync warning is never logged |
| PowerManager.ESEPowerManager.constructor | esepmdaemon/eSEPowerManager.cpp:97-99 | a new daemon has no pids, a closed node and its first call still to come |
| PowerManager.ESEPowerManager.IsPowerOnAllowed | esepmdaemon/eSEPowerManager.cpp:52-69 | the first call is allowed, later ones only with a right or no binding; the flag is spent |
| PowerManager.ESEPowerManager.PowerOn | esepmdaemon/eSEPowerManager.cpp:105-213 | in-place powerOn performs the reference step, on all its paths, with its reply, and keeps the invariant |
| PowerManager.ESEPowerManager.Register | esepmdaemon/eSEPowerManager.cpp:173-212 | its second half performs `Join` |
| PowerManager.ESEPowerManager.PowerOff | esepmdaemon/eSEPowerManager.cpp:215-276 | in-place powerOff performs the reference step with its reply and keeps the invariant |
| PowerManager.ESEPowerManager.GetState | esepmdaemon/eSEPowerManager.cpp:278-296 | in-place getState performs the reference step with its reply and keeps the invariant |
| PowerManager.ESEPowerManager.UnlinkAll | esepmdaemon/eSEPowerManager.cpp:311-316 | the loop over pidsMap unlinks every stored notifier, each once, and changes no count |
| PowerManager.ESEPowerManager.CutPower | esepmdaemon/eSEPowerManager.cpp:262-274 | a cut that works also closes the node, if it can be closed; a failed one leaves it open |
| PowerManager.ESEPowerManager.KillAll | esepmdaemon/eSEPowerManager.cpp:298-346 | killall unlinks exactly the registered pids, forgets them, and performs the reference step |
| PowerManager.ESEPowerManager.BinderDied | esepmdaemon/eSEPowerManager.cpp:353-377 | a death performs the reference step and keeps the invariant |
| PowerRuns.ReachableStatesAreSafe | esepmdaemon/eSEPowerManager.cpp:105-377 | in every reachable state, whatever failed before, registered pids have the chip powered and the node open, so the out-of-sync and assume-it's-off branches are dead for them |
| PowerRuns.OnlyTheFirstCallSkipsTheBindingCheck | esepmdaemon/eSEPowerManager.cpp:52-69 | over a run the binding check is waived exactly until the first powerOn |
| PowerRuns.GetStateOnlyLooks | esepmdaemon/eSEPowerManager.cpp:278-296 | getState may open the node and nothing else; its reply is the code of a failed open, -1 for a failed read, and otherwise has the chip's power and download in bits 10 to 12 and the driver's bits everywhere else |
| PowerRuns.EveryPowerCallIsLawful | esepmdaemon/eSEPowerManager.cpp:140-195 | over a run, power is switched on only when the chip shows no SPI, SPI_PRIO or DWNLD, every power call happens with nobody registered, and powerOff and killall never cut during a download |
| PowerRuns.FailedReadFreezesPower | esepmdaemon/eSEPowerManager.cpp:254-262 | after a failed status read neither powerOn, powerOff nor killall issues a power call |
| PowerRuns.StepInStep | esepmdaemon/eSEPowerManager.cpp:147-195 | a step keeps the successful power calls alternating unless it cuts twice, and then breaks it |
| PowerRuns.AlternationExactly | esepmdaemon/eSEPowerManager.cpp:147-195 | the successful power calls of a run are on, off, on, off, ... if and only if the run never cuts power that is already off |
| PowerRuns.OrderlyNeverCutsTwice | esepmdaemon/eSEPowerManager.cpp:358-374 | a run without killall whose deaths concern registered pids never cuts twice |
| PowerRuns.OrderlyRunsAlternate | esepmdaemon/eSEPowerManager.cpp:147-195 | hence its power calls alternate, and the chip is on exactly after an odd number of them |
| PowerRuns.KillAllBreaksAlternation | esepmdaemon/eSEPowerManager.cpp:317-333 | a run in which they do not |
| PowerRuns.OthersKeepTheirPower | esepmdaemon/eSEPowerManager.cpp:232-248 | no release, refusal, registration or death of one pid changes another pid's entry or takes its power |
| PowerRuns.CleanRunsPowerExactlyForClients | esepmdaemon/eSEPowerManager.cpp:105-276 | without faults and downloads the chip is on if and only if somebody is registered, after every step |
| PowerRuns.OrphanArises | esepmdaemon/eSEPowerManager.cpp:196-259 | a step from a state that is not stranded leaves the chip on for nobody if and only if one of the listed faults meets the first or the last reference |
| PowerRuns.OrphanStays | esepmdaemon/eSEPowerManager.cpp:105-377 | a step from a stranded state leaves it stranded unless somebody registers or a cut works |
| PowerRuns.OrphanExactly | esepmdaemon/eSEPowerManager.cpp:105-377 | a run ends with the chip on for nobody if and only if something stranded the power and nothing has recovered it since |
| PowerRuns.FailedLinkStrandsTheChip | esepmdaemon/eSEPowerManager.cpp:196-200 | a run in which a failed death link does |
| PowerRuns.OneClientRecoversAnOrphan | esepmdaemon/eSEPowerManager.cpp:105-276 | from any reachable stranded state one permitted, fault-free powerOn and powerOff return 1 and 0 and end with chip off and node closed |
| PowerRuns.PowerOnReply | esepmdaemon/eSEPowerManager.cpp:105-213 | powerOn returns 1 exactly when it registered a reference and a negative number otherwise |
| PowerRuns.PowerOffReply | esepmdaemon/eSEPowerManager.cpp:215-276 | powerOff returns 1 when others remain, 0 when it left the chip off, and a negative number when nothing was held or the power is stranded |
| PowerRuns.StepConserves | esepmdaemon/eSEPowerManager.cpp:202-248 | one step changes a pid's count by what it grants, takes back or drops |
| PowerRuns.ReferencesAreConserved | esepmdaemon/eSEPowerManager.cpp:202-248 | over a run, per pid: references granted = returned + dropped by deaths and killall + its count |
| PowerRuns.StepConservesTotal | esepmdaemon/eSEPowerManager.cpp:311-317 | one step changes the sum of all counts by the same balance over all pids |
| PowerRuns.TotalIsConserved | esepmdaemon/eSEPowerManager.cpp:202-248 | over a run, the sum of all counts in pidsMap is what was granted less what was returned and dropped |
| PowerRuns.LinkAfterStep | esepmdaemon/eSEPowerManager.cpp:236-243 | a step makes, loses or keeps a stored death link as stated |
| PowerRuns.StoredLinkExactly | esepmdaemon/eSEPowerManager.cpp:236-243 | over a run, a registered pid's stored notifier is still linked if and only if the pid has returned nothing since it was registered |
| PowerRuns.CleanPowerOnRegisters | esepmdaemon/eSEPowerManager.cpp:105-213 | outside a download a permitted, fault-free powerOn always registers and returns 1 |
| PowerRuns.AClientCanGoUnwatched | esepmdaemon/eSEPowerManager.cpp:236-243 | after two powerOns and one powerOff a pid is registered with the chip on and its stored notifier unlinked |
| PowerReplies.BindingErrorIsRefused | esepmdaemon/eSEPowerManager.cpp:52-112 | after any run with a powerOn in it, a powerOn with a binding status other than 0 and 1 returns -1, registers nobody, leaves chip and power calls alone, and at most opens the node |
| PowerReplies.PowerOnRegistersExactly | esepmdaemon/eSEPowerManager.cpp:105-213 | after any run powerOn returns 1 if and only if it is the first one or the binding is right or absent, the uid is system, root or radio, and node, status, power and death link can be had; it then adds one reference of that pid and changes no other entry |
| PowerReplies.PowerOnReportsTheFirstFailure | esepmdaemon/eSEPowerManager.cpp:105-213 | otherwise its reply is the code of the first thing that failed |
| PowerReplies.PowerOnPowerCalls | esepmdaemon/eSEPowerManager.cpp:131-195 | which power calls one powerOn issues, with what chip before, and where chip and node end, after any run |
| PowerReplies.PowerOffOutcome | esepmdaemon/eSEPowerManager.cpp:215-276 | powerOff gives back one reference of a trusted caller that has one, and cuts the power exactly after the last reference of all, outside a download and after a good status read; reply, entries, power calls, chip and node |
| PowerReplies.KillAllOutcome | esepmdaemon/eSEPowerManager.cpp:298-346 | the same for killall: it forgets everybody, and reports what kept it from cutting the power, or the result of the cut |
| PowerReplies.DeathOutcome | esepmdaemon/eSEPowerManager.cpp:353-377 | a death takes that pid's references only, and cuts the power exactly when nobody is left and the node is open, without closing it |
| PowerReplies.OnlyTheSpiBitIsTheDaemons | esepmdaemon/eSEPowerManager.cpp:105-377 | over a run no call moves SPI_PRIO, DWNLD or any other bit; DWNLD is as the environment last set it |
| Clients.AdvanceMovesOneReference | eseManager_fw/jni/getCplcTest.cpp:55-90 | a thread step changes the daemon's count of each pid exactly as it changes what that thread holds |
| Clients.MarksExactly | eseManager_fw/jni/getCplcTest.cpp:49-54 | over a run a process is dead, told to quit or noticed dead exactly after its crash, its signal or its death notice |
| Clients.AdvanceKeepsInv | eseManager_fw/jni/getCplcTest.cpp:80-90 | a thread step keeps the composed invariant |
| Clients.NextKeepsInv | eseManager_fw/jni/getCplcTest.cpp:80-126 | so does every other step: a crash, a late death notice, a signal, a download, a status query |
| Clients.NobodyUsesAnUnpoweredChip | eseManager_fw/jni/getCplcTest.cpp:55-90 | in every interleaving of any threads with deaths and failures: until its death is noticed a pid's count is its number of holding threads, and it is registered exactly when that is positive; every ese_getEseCplc of a live thread runs with chip powered and node open |
| Clients.EveryScheduleTerminates | eseManager_fw/jni/getCplcTest.cpp:80-126 | no schedule lets the threads take more steps than the work they started with, five a round and one to leave |
| ClientRounds.RoundsAddUp | eseManager_fw/jni/getCplcTest.cpp:80-90 | in every run, whenever a thread is at its loop head or has left the loop, the powerOns it made and the rounds it still has are the count it started with |
| ClientRounds.FinishedMeansAllRounds | eseManager_fw/jni/getCplcTest.cpp:55-90 | in every run a thread that left its loop without a signal made exactly its count of powerOns, one use and one powerOff for each that was granted, and 5 steps a round, 2 less for a refused one, and one to leave |
| Clients.SettleFrom | eseManager_fw/jni/getCplcTest.cpp:80-90 | from every state with the invariant thread steps alone lead to a settled one, within the work that is left |
| Clients.CanSettle | eseManager_fw/jni/getCplcTest.cpp:80-126 | hence no deadlock: every run can be continued by thread steps, whatever their outcomes, until all threads have finished or died |
| Clients.SettledMeansUnregistered | eseManager_fw/jni/getCplcTest.cpp:124-128 | when all threads have settled and all deaths were noticed, pidsMap is empty whatever failed on the way |
| Clients.SystemRefinesDaemon | esepmdaemon/BneSEPowerManager.cpp:17-46 | a run of the composed system drives the daemon through one of its own runs |
| Clients.PromptNoticesAreOrderly | esepmdaemon/eSEPowerManager.cpp:353-377 | that run is orderly when deaths are noticed while the pid is registered |
| Clients.PowerCallsOfTheSystem | esepmdaemon/eSEPowerManager.cpp:140-195 | hence in the composed system no power call is unlawful, and when deaths are noticed while the pid is registered the successful ones alternate |
| Clients.UnwatchedDeathKeepsThePower | esepmdaemon/eSEPowerManager.cpp:236-243 | when only linked stored notifiers report deaths, a process that dies with references and without its link keeps its entry, and the chip its power, in every continuation |
| Clients.ADeathCanGoUnnoticed | esepmdaemon/eSEPowerManager.cpp:236-243 | such a death is reachable without any fault: two threads get power, one gives its reference back, the process dies |
| Clients.CleanRunsEndWithTheChipOff | eseManager_fw/jni/getCplcTest.cpp:124-128 | without faults and downloads the settled system has nobody registered and the chip off |
| Clients.QuitEndsWithTheRound | eseManager_fw/jni/getCplcTest.cpp:49-54 | once g_quit is set a thread finishes its round and starts no other, whatever the schedule |
| Clients.RoundIsBalanced | eseManager_fw/jni/getCplcTest.cpp:55-78 | a round keeps the daemon's invariant and ends with every pid's count as it was |
| Clients.RoundsAreBalanced | eseManager_fw/jni/getCplcTest.cpp:80-90 | so does a thread of any number of rounds |
| ClientRounds.RoundsAreARun | eseManager_fw/jni/getCplcTest.cpp:80-90 | n rounds of a thread are a run of the daemon with exactly its n powerOns, in order and with their outcomes, and otherwise only its powerOffs |
| ClientRounds.CleanRoundsSwitchTheChip | eseManager_fw/jni/getCplcTest.cpp:55-90 | n fault-free rounds of the only client issue exactly n times the calls on, off, and end with chip off, node closed and nobody registered |
| Clients.GetCplc | eseManager_fw/jni/getCplcTest.cpp:55-78 | one round takes the daemon through its powerOn and powerOff, and makes its request exactly when powerOn granted it, then with power on |
| Clients.GetCplcThread | eseManager_fw/jni/getCplcTest.cpp:80-90 | the thread loop performs its count of rounds one after the other, or fewer when told to quit |
| IntrusiveList.InitListHead | libese_spi_client/include/tee_client_api.h:136-141 | an initialised head is the ring of the empty sequence |
| IntrusiveList.AddBetween | libese_spi_client/include/tee_client_api.h:175-182 | rewrites exactly prev->next, next->prev and the new node, also when prev is next |
| IntrusiveList.ListAdd | libese_spi_client/include/tee_client_api.h:191-194 | inserts after any node of the ring, at the front for the head |
| IntrusiveList.ListAddTail | libese_spi_client/include/tee_client_api.h:202-205 | inserts before any node of the ring, at the end for the head |
| IntrusiveList.Unlink | libese_spi_client/include/tee_client_api.h:214-225 | joins the neighbours and poisons the node |
| IntrusiveList.ListDel | libese_spi_client/include/tee_client_api.h:233-236 | deletes at any position and poisons the node; of an empty ring it poisons the sentinel |
| IntrusiveList.ListPop | libese_spi_client/include/tee_client_api.h:259-264 | takes and poisons the first node; on an empty list it is the sentinel that gets poisoned |
| IntrusiveList.ListPopTail | libese_spi_client/include/tee_client_api.h:245-250 | takes and poisons the last node, with the same fault |
| IntrusiveList.ListEmpty | libese_spi_client/include/tee_client_api.h:273-276 | true exactly for the empty sequence |
| IntrusiveList.RingIsUnique | libese_spi_client/include/tee_client_api.h:132-134 | a head stands for one sequence only, so the contracts above determine the list |
| IntrusiveList.Visit | libese_spi_client/include/tee_client_api.h:162-166 | one round of the safe iteration, deleting the current entry or not |
| IntrusiveList.ForEachEntrySafe | libese_spi_client/include/tee_client_api.h:162-166 | the safe iteration ends, visits every entry once in order, and leaves exactly the undeleted ones in order, the others poisoned |
| ManyLists.PerformOnRing | libese_spi_client/include/tee_client_api.h:175-264 | an operation, an insertion at any place included, touches only its own ring and the joining node, and poisons what leaves |
| ManyLists.Perform | libese_spi_client/include/tee_client_api.h:175-264 | among any number of disjoint lists an operation at any place changes its list as stated, no other, poisons what leaves, and still no node is in two |
| ManyLists.PerformAll | libese_spi_client/include/tee_client_api.h:175-264 | so does any sequence of operations at any places; the nodes it hands back are those of the sequences, and every node that left and did not rejoin ends poisoned |
| ManyLists.AroundANode | libese_spi_client/include/tee_client_api.h:175-236 | list_add puts the new node right behind a listed node, list_add_tail right before it, list_del takes just that node out, and no other list changes |
| ManyLists.AtTheSentinel | libese_spi_client/include/tee_client_api.h:191-206 | at the sentinel list_add puts the node first and list_add_tail last |
| ManyLists.AddTailAndPopAreFifo | libese_spi_client/include/tee_client_api.h:202-264 | list_add_tail at the head with list_pop is a queue, whatever happens on other lists in between |
| ManyLists.StackKeepsItsBase | libese_spi_client/include/tee_client_api.h:191-264 | list_add and list_pop leave alone what lies below the height they keep to |
| ManyLists.AddAndPopAreLifo | libese_spi_client/include/tee_client_api.h:191-264 | after a balanced run in between, list_pop returns what list_add put there and restores the list |
| EsePort.Port.Read | libese_spi_client/80t-test-ap.cpp:443-450 | delivers the next bytes, as many as there are, and leaves the rest of the buffer alone |
| EsePort.Port.Write | libese_spi_client/80t-test-ap.cpp:146 | what was sent, in order |
| EseFrames.SofAtIsFirst | libese_spi_client/80t-test-ap.cpp:431-452 | `SofAt` is the place of the first start byte: none stands before it, and one stands there unless it is the end |
| EseFrames.ReadMore | libese_spi_client/80t-test-ap.cpp:521-528 | one read puts the next bytes behind those already in the buffer |
| EseFrames.ReadBlock | libese_spi_client/80t-test-ap.cpp:521-528 | reads the block behind a start byte by its length byte, no further |
| EseFrames.FindSof | libese_spi_client/80t-test-ap.cpp:500-519 | the scan stops right behind the first start byte among the next 1000 and otherwise uses those up |
| EseFrames.EseReadData | libese_spi_client/80t-test-ap.cpp:493-539 | one read delivers the block after the first start byte, its length plus 4 and the input behind it, or -ETIME |
| EseFrames.BlockRoundTrip | libese_spi_client/80t-test-ap.cpp:521-528 | a block as sent is read as sent, up to its last byte, whatever it contains |
| EseFrames.NoisyBlockIsRead | libese_spi_client/80t-test-ap.cpp:493-539 | so is a block after fewer than 1000 bytes of noise |
| EseFrames.StreamIsReadBack | libese_spi_client/80t-test-ap.cpp:493-539 | any sequence of such blocks is read back block by block, start bytes in payloads included |
| EseFrames.TimeoutExactly | libese_spi_client/80t-test-ap.cpp:513-519 | a read fails if and only if the next 1000 bytes hold no start byte |
| EseFrames.SendAndRead | libese_spi_client/80t-test-ap.cpp:575-577 | one try sends the command and reads one reply |
| EseFrames.EseCommonCmdTest | libese_spi_client/80t-test-ap.cpp:568-581 | the command is sent until a reply is longer than 4 bytes, at most 11 times, and that reply's length is returned |
| EseFrames.StreamFitsWhileRetrying | libese_spi_client/80t-test-ap.cpp:568-581 | on any stream of blocks with an awaited one the precondition of the retries holds |
| EseFrames.StopsAtAwaited | libese_spi_client/80t-test-ap.cpp:578 | the retries stop exactly at the first block with information, or at the eleventh |
| EseFrames.CommonCmdOnStream | libese_spi_client/80t-test-ap.cpp:568-581 | on such a stream the command is sent once for every block up to that one, its length plus 4 is returned, and the stream is left behind it |
| EseFrames.ScanExactly | libese_spi_client/80t-test-ap.cpp:440-458 | the zero-skipping scan never steps over a start byte: it stops behind the first one exactly when that takes no more than its rounds |
| EseFrames.ReadCplcData | libese_spi_client/80t-test-ap.cpp:432-487 | the zero-skipping reader reads the block behind the first start byte if eight rounds reach it, and otherwise fails having used up what those rounds skip; its result is that of its last read |
| EseFrames.CplcFailsExactly | libese_spi_client/80t-test-ap.cpp:440-458 | it fails exactly when the start byte is out of reach, having used up bytes without one |
| EseFrames.ReachBounds | libese_spi_client/80t-test-ap.cpp:440-452 | a start byte among the first eight bytes is always reached, one after sixteen never |
| EseFrames.ZerosInReach | libese_spi_client/80t-test-ap.cpp:446-450 | leading zeros are skipped if and only if there are at most fifteen |
| EseFrames.CplcBlockIsRead | libese_spi_client/80t-test-ap.cpp:432-487 | after up to seven bytes of noise, or up to fifteen zeros, a block is read as sent, and what is returned is LEN + 1 |
| EseFrames.CutShortBlockIsPadded | libese_spi_client/80t-test-ap.cpp:460-539 | a block that the input ends within is filled up with zeros; the plain reader returns LEN + 4, the zero-skipping one what its last read got |
| EseFrames.ReadersAgree | libese_spi_client/80t-test-ap.cpp:432-539 | when the zero-skipping reader succeeds the plain reader gets the same block and leaves the same input |
| NciExchange.OnlyCreditsLookLikeCredits | libese_spi_client/80t-test-ap.cpp:50 | the six-byte comparison matches the credits notification only, whatever stale bytes follow a shorter packet |
| NciExchange.ComparisonIsRight | libese_spi_client/80t-test-ap.cpp:196-214 | so both tests of the exchange see the packet just read, on any buffer |
| NciExchange.ReadNext | libese_spi_client/80t-test-ap.cpp:106-121 | one read puts the next bytes of a packet behind those already in the buffer and changes no others |
| NciExchange.EveryReceiveIsAUnit | libese_spi_client/80t-test-ap.cpp:106-121 | whatever bytes one receive takes, three that begin with 0x51 or a header and its payload of up to 252 bytes, are the wire form of one unit |
| NciExchange.EveryUnitIsAReceive | libese_spi_client/80t-test-ap.cpp:106-121 | and the wire form of every unit is of that shape |
| NciExchange.EndsOnTheWire | libese_spi_client/80t-test-ap.cpp:196-218 | in bytes: if the first packet is 60 06 03 01 03 01 the exchange ends at the first later packet that begins with 03, and otherwise at the first later packet that is 60 06 03 01 03 01 |
| NciExchange.EndableOnTheWire | libese_spi_client/80t-test-ap.cpp:196-218 | and it ends at all if and only if there is such a packet |
| NciExchange.RecvNciData | libese_spi_client/80t-test-ap.cpp:99-130 | one receive takes one packet, or three bytes when they start with 0x51, into a buffer with any content, and the comparison is right for it |
| NciExchange.RecvUnit | libese_spi_client/80t-test-ap.cpp:99-130 | the same at any place of a packet stream |
| NciExchange.AwaitData | libese_spi_client/80t-test-ap.cpp:198-208 | after an immediate credit everything through the first data packet is received |
| NciExchange.AwaitCredits | libese_spi_client/80t-test-ap.cpp:209-218 | otherwise everything through the first later credits notification |
| NciExchange.ExchangeUpTo | libese_spi_client/80t-test-ap.cpp:186-222 | the exchange sends once, ends at the given first ending packet, and leaves the stream behind it |
| NciExchange.DataMsgExchange | libese_spi_client/80t-test-ap.cpp:186-222 | whenever some later packet ends the exchange it ends at the first such one: a data packet after an immediate credit, the credits notification otherwise |
| TeeSession.Tee.InitializeContext | libese_spi_client/include/tee_client_api.h:785-821 | acquires the context on success |
| TeeSession.Tee.OpenSession | libese_spi_client/include/tee_client_api.h:1035-1134 | acquires the session on success, inside a context |
| TeeSession.Tee.AllocateSharedMemory | libese_spi_client/include/tee_client_api.h:928-998 | acquires a block on success, inside a context |
| TeeSession.Tee.InvokeCommand | libese_spi_client/include/tee_client_api.h:1165-1283 | needs session and both blocks, and answers within the capacity |
| TeeSession.Tee.ReleaseSharedMemory | libese_spi_client/include/tee_client_api.h:1001-1032 | frees a held block, and does nothing for one never allocated |
| TeeSession.Tee.CloseSession | libese_spi_client/include/tee_client_api.h:1137-1162 | frees an open session |
| TeeSession.Tee.FinalizeContext | libese_spi_client/include/tee_client_api.h:826-852 | only without open sessions and allocated blocks |
| TeeSession.Init | libese_spi_client/libese_spi_client.cpp:57-83 | reports 100, 101 or 0 with what it has acquired |
| TeeSession.Exchange | libese_spi_client/libese_spi_client.cpp:392-435 | allocates, invokes and releases; back to context and session whatever fails |
| TeeSession.RunSession | libese_spi_client/libese_spi_client.cpp:360-441 | for all outcomes: everything acquired is freed, properly nested, no library rule is broken, and the first failure is the result |
| TeeSession.TraceByStage | libese_spi_client/libese_spi_client.cpp:431-440 | the nested trace is blocks, then session, then context |
| TeeSession.SessionByItsResults | libese_spi_client/libese_spi_client.cpp:360-441 | what is acquired, invoked and freed, in which order, and the result code, for each way the five calls can turn out |
| TeeSession.SessionsBalance | libese_spi_client/libese_spi_client.cpp:431-440 | each resource is freed as often as acquired, at most once |
| TeeSession.NegatedIsTheNegative | libese_spi_client/libese_spi_client.cpp:440 | the return code is the negative of the result modulo 2^32, as an int |
| TeeSession.MaskedExactly | libese_spi_client/libese_spi_client.cpp:440 | the return code is non-negative if and only if the result is success or above 0x80000000 |
| TeeSession.BadParametersLooksLikeSuccess | libese_spi_client/libese_spi_client.cpp:423-440 | a session that fails with a TEEC error and returns a positive code |
| TeeSession.CaGetEseCplc | libese_spi_client/libese_spi_client.cpp:360-441 | asks for the CPLC, copies the answer and its length on success only, and returns the negated result |
| TeeSession.CaSendEseCommand | libese_spi_client/libese_spi_client.cpp:274-358 | the same for any command and response record, and -1 for missing arguments |
| CplcDelivery.Parcel.Read | eseManagerServiceDaemon/IeseManagerService.cpp:122-127 | copies the bytes and skips their padding, or fails and changes nothing |
| CplcDelivery.Parcel.ReadUint32 | eseManagerServiceDaemon/IeseManagerService.cpp:202 | the next word, or 0 past the end |
| CplcDelivery.Parcel.WriteUint32 | eseManagerServiceDaemon/IeseManagerService.cpp:217 | appends four bytes |
| CplcDelivery.Parcel.WriteInplace | eseManagerServiceDaemon/IeseManagerService.cpp:209-212 | appends zero-filled, padded room |
| CplcDelivery.Parcel.Fill | eseManagerServiceDaemon/IeseManagerService.cpp:211-214 | stores through the pointer into that room |
| CplcDelivery.ServiceStatusExactly | eseManagerServiceDaemon/eseManagerService.cpp:117-129 | the service reports the negative of a result between 1 and 0x80000000, and 0 for every other |
| CplcDelivery.ServiceGetEseCplc | eseManagerServiceDaemon/eseManagerService.cpp:117-129 | passes negative codes on, turns all others into NO_ERROR, and for a masked error leaves the zeros and the full length |
| CplcDelivery.ReplyLayout | eseManagerServiceDaemon/IeseManagerService.cpp:209-221 | the reply parcel is the content, zeros up to a multiple of four, and the length in four bytes, low byte first |
| CplcDelivery.AnswerInto | eseManagerServiceDaemon/IeseManagerService.cpp:209-221 | for a length above zero the reply is the padded buffer and then the actual length, when the service reports NO_ERROR |
| CplcDelivery.OnTransactGetCplc | eseManagerServiceDaemon/IeseManagerService.cpp:198-222 | a zero length is refused, and otherwise the status and the reply are those of the service |
| CplcDelivery.ReadReply | eseManagerServiceDaemon/IeseManagerService.cpp:122-131 | the proxy takes out of a reply exactly what the stub put in |
| CplcDelivery.ProxyGetEseCplc | eseManagerServiceDaemon/IeseManagerService.cpp:101-132 | end to end: the caller's buffer and length are what the service delivered, or zeros and the old length |
| CplcDelivery.FetchCplc | eseManager_fw/jni/eseManager_jni.cpp:179-195 | the chip is asked exactly when power was granted and the transport worked, with chip and node on throughout, inside one balanced round |
| CplcDelivery.ValidateChipLegality | eseManager_fw/jni/eseManager_jni.cpp:177-208 | true if and only if powerOn returned 1, the transport worked, all five TEE results were success, and the answer has at least 47 bytes with 0x47 in position 3 and 0x90 in position 4, although masked errors pass as NO_ERROR |
| CplcDelivery.GetCplcArray | eseManager_fw/jni/eseManager_jni.cpp:140-167 | returns the TEE's answer, null, or for a masked error a hundred zero bytes, and exactly when |
| HexCodec.CharToByte | libese_spi_client/libese_spi_client.cpp:220-230 | a digit's value for exactly the hex digits, 255 for all else |
| HexCodec.DigitsInOrder | libese_spi_client/libese_spi_client.cpp:220-230 | each digit is printed as, and read from, its own character, in both cases |
| HexCodec.OneByteBothWays | libese_spi_client/libese_spi_client.cpp:86-245 | a byte is printed and read high digit first, and what a character that is no digit does to it in either place |
| HexCodec.HexcharToByte | libese_spi_client/libese_spi_client.cpp:233-245 | writes the parse of the string and its length, and nothing behind it |
| HexCodec.PrintCell | libese_spi_client/libese_spi_client.cpp:94 | one byte's text and terminator stay inside the buffer |
| HexCodec.PrintPacket | libese_spi_client/libese_spi_client.cpp:86-95 | for up to 65535 bytes the loop stays inside 3*len+1 characters and leaves the text and its terminator |
| HexCodec.PrintThenParse | libese_spi_client/libese_spi_client.cpp:86-245 | the printed text without its spaces parses to the same bytes |
| HexCodec.ParseThenPrint | libese_spi_client/libese_spi_client.cpp:86-245 | printing the parse of an even string gives it back in upper case if and only if it is all hex |

## Left out

- PowerManager.ESEPowerManager.PowerOn: `client_threadCount` is unbounded here, so 2^31 references of one pid are not modelled; whether an unstored second notifier still fires is binder's business.
- Clients.NextKeepsInv: a death notice may come for any dead pid, linked or not, because binder may still fire an unstored notifier; `UnwatchedDeathKeepsThePower` is the case that it does not.
- PowerManager.ESEPowerManager.BinderDied: its race with a running call is not modelled, since it is taken as atomic.
- EsePort.Port.Read: short reads while bytes remain and read errors are not modelled.
- EsePort.Port.Write: failed writes and their retries are not modelled; the callers ignore the result.
- EseFrames.EseReadData: a length byte above 252 would overrun the source's buffer, so the contract requires that the block fits.
- NciExchange.DataMsgExchange: the receive loop does not end when no packet ends the exchange, so the contract requires one; payloads are at most 252 bytes.
- HexCodec.HexcharToByte: an odd-length string makes the source read past its end, so the contract requires an even one.
- CplcDelivery.ProxyGetEseCplc: a transaction that fails in transport is taken not to have reached the stub; the interface token is part of the transport result.
- The killall call in the composition with threads: it is debug-only and forgets references that threads still hold; it is in all single-daemon results.
- Checksums of SPI blocks: the readers never look at the last byte.
- Service lookup, retries, proxy death observers and daemon restart: a client call is a direct call to the daemon.
- sendCommand marshalling, sendCommandEx dispatch, setSomething and getSomething: no property beyond one call.
- teeclientdemo, invoke_transmit and getCplc.cpp: near copies of what is modelled.
- HexCodec.PrintPacket: the SEND or RECV label under which the text is printed is not modelled.
- Logging, sleeps, JNI registration, Java UI and makefiles.
