# Operating-systems labs: models and proofs

A Dafny 4.11 model of the parts of the operating-systems labs in which several processes, threads,
handlers or buffers have to work together, and proofs of what they keep in every run.
`dafny verify dfyconfig.toml` checks everything.

* **Pizzeria (lab 7).** `Kitchen` is the shared memory: oven and table slots updated in place by a class,
  each method equal to a function on memory values. `Staff` holds the semaphores and the code between
  semaphore operations. `SystemV` (zad1) makes one step of a whole `semop` call, `Posix` (zad2) one step of
  every `sem_wait` and `sem_post`. Any number of chefs and deliverers, any capacities.
  `PosixRefinesSystemV` maps one onto the other, in both directions; `PosixSafety` carries the accounts over
  and shows that nothing that "should never happen" happens and that nobody is ever stuck. `PizzaDraws`
  follows the types the chefs draw to where their pizzas are, and delivers any list of pizzas.
* **Santa (lab 9).** `Santa` is a step system of one Santa, elves and reindeer over six mutexes and four
  conditions. `SantaSafety`: mutual exclusion, counting, groups, and that Santa never sleeps on while a full
  group waits. `SantaPaths` and `SantaRounds`: the broadcasts wake those who wait, so that any number of
  groups is helped and all deliveries are made; an elf that is late for a call misses it. `SantaDeadlock`:
  Santa and an elf take two mutexes in opposite orders and can lock each other out. `SantaStandstill`: exactly when the whole program can come to a standstill, for that reason or because
  a reindeer misses the broadcast it is about to wait for.
* **Tic-tac-toe server (lab 10, zad2).** `TicTacToe` has the rules, `Server` the connection table: an array
  of connections by value, heap clients with links to each other's slot, shared games, recursive removal.
  Every send can fail. The history fields record what was allocated and freed.
* **Pipelines (lab 5, zad1).** `Components`: `strtok` and the counting passes. `CommandText`: texts put
  together from words and pieces come apart into them. `ComponentIds`: the number in a name. `Interpreter`: from the file of declarations to the processes of a line, and what they mean.
  `PipeWiring`: descriptor tables of the parent and of the children, where end-of-file goes, and what a
  failed `pipe` leaves open. Functions that end in undefined behaviour of C say so (`Undefined`).
* **Producers, consumer and row file (lab 5, zad3).** `RowFile` reads, updates and rewrites the file through
  a list of lines; `Fifo` prints, sends and reads records; `FifoMerge` puts any producers, any interleaving
  and the consumer together, from the inputs to the file.
* **Negative image (lab 8).** `NegativeImage`: shares of the threads and every interleaving of their steps
  (`Interleaving` is shared with `FifoMerge`).
* **Message text (lab 6, zad2).** `Messages`: printing and parsing with C integer widths and a stale `errno`.
* **Acknowledged signals (lab 4, zad3b).** `Handshake`: both processes, their handlers and the two sets of
  pending signals.

## Where the code does not do what it is for

* Pizza type 9 is never drawn (`Kitchen.DrawnTypes`), though the lab's text says 0 to 9.
* `clear_pizzeria` empties the slots and leaves the counters; the model starts from zero-filled memory.
* The Santa program can come to a standstill: with at least one reindeer and one delivery, exactly when a
  group is not empty and there are enough elves for it or a second delivery is wanted
  (`SantaStandstill.DeadIff`).
* An elf that has reported its problem but does not wait yet when Santa calls its group misses the call
  (`SantaRounds.CallReachesOrMisses`); with just enough elves for a group, any call can be the last one for
  that reason (`SantaRounds.AnyCallCanBeTheLast`).
* When a message about the state of a new game cannot be sent, the server's error report reads the waiting
  slot after it was set to NULL (`crash` in `Server.Table.PairNewClient`); a move message of a client without
  an opponent is read through NULL too (`crash` in `Server.Table.HandleMove`).
* The PINGED mark is put on a copy of the connection, so a silent client is never removed
  (`Server.Table.PingConnections`).
* A component named by digits alone loses its first digit (`ComponentIds.BareNumeral`), and ten digits
  overflow (`ComponentIds.CommandId`); the last declaration of a file without a final newline loses its last
  character (`Interpreter.DeclarationText`); an empty segment between two '|' is read through NULL
  (`Interpreter.ParseCommand`, `Interpreter.DecodeCommand`).
* A `pipe` that fails after the first round leaves both ends of the pipe before it open in the parent
  (`PipeWiring.LeakKeepsPipeOpen`).
* Rows of the result file are right exactly when no input contains a newline (`FifoMerge.RowsArrive`). The
  consumer's removal of trailing blanks never removes anything (`Fifo.RemoveTrailing`).
* The `numbers` method leaves the colours of an incomplete last share black
  (`NegativeImage.NumbersMethodResult`).
* The message text loses the sign of numbers and cannot carry an empty body or one with a '-'; a zero field
  is refused when `errno` was set before (`Messages.RoundTrip`).
* In the handshake a signal is counted after `kill`; a handler that comes in between never returns to the
  counting. Four such moments change what the two report (`Handshake.FinalCounts`), and each can happen.

## Model

| member | source | states |
|---|---|---|
| Kitchen.DrawnTypes | laboratoria/7. Laboratorium/zad2/lib/libcommon.c:13-15 | the pizza types are exactly what `randint` can make of a random number, and its upper end is not among them |
| Kitchen.FindEmptySlot | laboratoria/7. Laboratorium/zad2/lib/libcommon.c:50-55 | returns the first empty slot; -1 exactly when no slot is empty |
| Kitchen.FillArray | laboratoria/7. Laboratorium/zad2/lib/libcommon.c:57-59 | every element becomes the value |
| Kitchen.CountsDecideSearch | laboratoria/7. Laboratorium/zad2/chef.c:104-110 | a slot search succeeds exactly when the number of pizzas says that there is one to find |
| Kitchen.WriteSlot | laboratoria/7. Laboratorium/zad2/chef.c:147-162 | writing a slot exchanges exactly the old pizza for the new one in the contents |
| Kitchen.Pizzeria.constructor | laboratoria/7. Laboratorium/zad2/main.c:150-174 | fresh zero-filled memory with cleared slots is the empty pizzeria |
| Kitchen.Pizzeria.Clear | laboratoria/7. Laboratorium/zad2/main.c:129-132 | empties all slots and leaves both counters alone |
| Kitchen.Pizzeria.PutPizzaInOven | laboratoria/7. Laboratorium/zad2/chef.c:104-114 | the first empty oven slot gets the pizza, or the fault is reported and nothing changes |
| Kitchen.Pizzeria.MovePizzaToTable | laboratoria/7. Laboratorium/zad2/chef.c:147-162 | the chef's pizza goes to the first empty place on the table; on a full table it is lost and the fault reported |
| Kitchen.Pizzeria.GetPizzaFromTable | laboratoria/7. Laboratorium/zad2/deliverer.c:95-103 | takes the first pizza of the table; an empty table leaves the deliverer's pizza as it was |
| SystemV.ExecKeepsInv | laboratoria/7. Laboratorium/zad1/chef.c:66-168 | every run keeps the accounts of semaphores, counters and slots, the ownership of oven slots and the conservation of pizzas |
| SystemV.InitInv | laboratoria/7. Laboratorium/zad1/main.c:114-157 | the initial semaphores and memory fit the accounts |
| SystemV.PutSucceeds | laboratoria/7. Laboratorium/zad1/chef.c:76-82 | with the semaphores held, the oven has an empty slot |
| SystemV.MoveSucceeds | laboratoria/7. Laboratorium/zad1/chef.c:123-134 | with the semaphores held, the table has an empty slot and the chef's oven slot holds its pizza |
| SystemV.TakeSucceeds | laboratoria/7. Laboratorium/zad1/deliverer.c:65-73 | with the semaphores held, the table has a pizza |
| PosixRefinesSystemV.StepRefines | laboratoria/7. Laboratorium/zad2/chef.c:96-180 | a single semaphore operation either changes nothing in the System V state, or is the whole `semop` of the same process |
| PosixRefinesSystemV.RunRefines | laboratoria/7. Laboratorium/zad2/deliverer.c:85-156 | every run, interleaved at single semaphore operations, is a run of the System V version without its silent steps |
| PosixRefinesSystemV.StepRealised | laboratoria/7. Laboratorium/zad1/chef.c:111-121 | every atomic `semop` is realised by a sequence of single operations |
| PosixRefinesSystemV.RunRealised | laboratoria/7. Laboratorium/zad1/lib/libcommon.h:50-63 | every System V run is what some POSIX run looks like |
| PosixRefinesSystemV.SameReachableStates | laboratoria/7. Laboratorium/zad2/chef.c:182-190 | a state is reachable in one version exactly when it is in the other, seen through the mapping |
| PosixSafety.AccountsHold | laboratoria/7. Laboratorium/zad2/main.c:134-148 | in every reachable state the five semaphores and the permits held in each phase account exactly for capacities, counters and slots |
| PosixSafety.PizzasConserved | laboratoria/7. Laboratorium/zad2/chef.c:110-114 | the pizzas put in the oven are those in the oven, on the table, carried and delivered |
| PosixSafety.OvenSlotsOwned | laboratoria/7. Laboratorium/zad2/chef.c:147-150 | baking chefs own pairwise distinct oven slots, each with the chef's own pizza |
| PosixSafety.OvenHasRoom | laboratoria/7. Laboratorium/zad2/chef.c:104-110 | the branch "burnt down" is not taken and the slot search succeeds |
| PosixSafety.TableHasRoom | laboratoria/7. Laboratorium/zad2/chef.c:152-158 | the branch "the table gave way" is not taken and the slot search succeeds |
| PosixSafety.NoFault | laboratoria/7. Laboratorium/zad2/chef.c:104-158 | no run takes a branch that should never happen |
| PosixSafety.DeliverersFindPizzas | laboratoria/7. Laboratorium/zad2/deliverer.c:95-103 | a deliverer with the lock finds a pizza and carries one exactly until it hands it over |
| PosixSafety.ChefsExclude | laboratoria/7. Laboratorium/zad2/chef.c:99-128 | no two chefs hold the memory lock |
| PosixSafety.DeliverersExclude | laboratoria/7. Laboratorium/zad2/deliverer.c:88-117 | no two deliverers hold the memory lock |
| PosixSafety.ChefAndDelivererExclude | laboratoria/7. Laboratorium/zad2/deliverer.c:88-117 | no chef and deliverer hold the memory lock together |
| PosixSafety.ChefHolderNeverBlocks | laboratoria/7. Laboratorium/zad2/chef.c:139-142 | the lock holder can always step |
| PosixSafety.DelivererHolderNeverBlocks | laboratoria/7. Laboratorium/zad2/deliverer.c:126-131 | the lock holder can always step, and the end of a delivery never blocks |
| PosixSafety.NoDeadlock | laboratoria/7. Laboratorium/zad2/chef.c:98-99 | with at least one chef, one deliverer and one place in oven and table, some process can step in every reachable state |
| PizzaDraws.DrawsBecomePizzas | laboratoria/7. Laboratorium/zad1/chef.c:160-168 | after every System V run the types drawn in its choosing steps are those put in the oven and those of the chefs that have drawn and not put yet |
| PizzaDraws.EveryDrawIsBaked | laboratoria/7. Laboratorium/zad2/chef.c:182-190 | the same for every schedule of single semaphore operations: no draw is lost, changed or made up on the way to the oven |
| PizzaDraws.EveryDrawArrives | laboratoria/7. Laboratorium/zad2/chef.c:87-163 | for every schedule, the types drawn are those in the oven, on the table, carried, delivered, or in the hands of a chef that has not put its pizza yet |
| PizzaDraws.AnyTypeCanBeDrawn | laboratoria/7. Laboratorium/zad2/chef.c:184-186 | a chef that chooses can draw exactly the types from the least one up to, and without, the upper end |
| PizzaDraws.AnyPizzasDelivered | laboratoria/7. Laboratorium/zad2/deliverer.c:85-156 | for every list of pizza types some run delivers exactly these pizzas and leaves oven and table empty |
| SantaSafety.ExecKeepsInv | laboratoria/9. Laboratorium/zad1/characters/santa.c:19-43 | every step of every thread keeps the invariant over mutexes, groups, counters and Santa's sleep |
| SantaSafety.MutualExclusion | laboratoria/9. Laboratorium/zad1/characters/elf.c:34-79 | two threads in sections of the same mutex are one thread |
| SantaSafety.SantaNeverOversleeps | laboratoria/9. Laboratorium/zad1/characters/santa.c:52-61 | while Santa is parked with a full group of elves counted, the elf recorded last, which made up the number, is between its increment and its broadcast |
| SantaSafety.SantaNeverMissesReindeer | laboratoria/9. Laboratorium/zad1/characters/reindeer.c:33-55 | while Santa is parked with all reindeer counted, exactly one of them is between its increment and its broadcast |
| SantaSafety.WaitingElves | laboratoria/9. Laboratorium/zad1/characters/elf.c:48-69 | the count stays within the limit and the recorded elves are pairwise distinct, also between Santa's call and his reset |
| SantaSafety.HelpsFullGroup | laboratoria/9. Laboratorium/zad1/characters/santa.c:82-102 | Santa calls and resets full groups only, and no elf joins meanwhile |
| SantaSafety.CountedReindeer | laboratoria/9. Laboratorium/zad1/characters/reindeer.c:33-55 | the count is the number of different reindeer counted since the last delivery, at most all |
| SantaSafety.DeliversWithAll | laboratoria/9. Laboratorium/zad1/characters/santa.c:68-80 | a delivery happens only with every reindeer counted and waiting |
| SantaSafety.NeverWakesForNothing | laboratoria/9. Laboratorium/zad1/characters/santa.c:19-49 | Santa wakes only for a full group, serves one before he sleeps again and ends after exactly the agreed deliveries |
| SantaRounds.CallWakesElf | laboratoria/9. Laboratorium/zad1/characters/santa.c:84-91 | after Santa's call no elf is parked for it: each one that was needs only the start mutex to go on, and nobody else has moved |
| SantaRounds.SolvedWakesElf | laboratoria/9. Laboratorium/zad1/characters/santa.c:95-101 | after the group is helped, each elf that was parked for want of room needs only the wait mutex to go on, and nobody else has moved |
| SantaRounds.DeliveredWakesReindeer | laboratoria/9. Laboratorium/zad1/characters/santa.c:75-79 | after a delivery each parked reindeer needs only the delivery mutex to go on, and nobody else has moved |
| SantaRounds.AnyNumberOfGroups | laboratoria/9. Laboratorium/zad1/characters/elf.c:18-23 | after any number of deliveries but the last, any number of groups can have been called with everybody back at work and Santa asleep, however few elves there are beyond one group |
| SantaRounds.ProgramEnds | laboratoria/9. Laboratorium/zad1/characters/santa.c:19-48 | for all numbers of deliveries and of groups helped before, a run ends the program after all its deliveries |
| SantaRounds.TurnedAwayElf | laboratoria/9. Laboratorium/zad1/characters/elf.c:34-46 | with more elves than a group has, a run in which an elf finds no room and waits goes on to that elf being recorded |
| SantaRounds.CallReachesOrMisses | laboratoria/9. Laboratorium/zad1/characters/elf.c:71-79 | when Santa calls a group each of its elves is parked for the call or about to lock the start mutex; the call wakes exactly the first kind and the second is left to park afterwards |
| SantaRounds.AnyCallCanBeTheLast | laboratoria/9. Laboratorium/zad1/characters/santa.c:82-102 | with just enough elves for a group, after any number of groups a run makes a call that misses an elf, and no continuation of it ever calls a group again |
| SantaDeadlock.StuckForever | laboratoria/9. Laboratorium/zad1/characters/santa.c:35-36 | when Santa and an elf hold the sleep and the problem mutex crosswise, neither ever steps again |
| SantaDeadlock.CrosswiseReachable | laboratoria/9. Laboratorium/zad1/characters/elf.c:49-65 | a run into that state, for all numbers with enough elves for a group |
| SantaDeadlock.CrosswiseIff | laboratoria/9. Laboratorium/zad1/characters/elf.c:60-65 | the crosswise state is reachable exactly when a group is not empty and there are enough elves for it |
| SantaDeadlock.OriginalCanLockCrosswise | laboratoria/9. Laboratorium/zad1/characters/santa.c:35-36 | ten elves, groups of three, nine reindeer and three deliveries can lock crosswise |
| SantaStandstill.MissedReachable | laboratoria/9. Laboratorium/zad1/characters/santa.c:75-79 | with too few elves for a group and a second delivery wanted, a run in which Santa broadcasts the end of a delivery while a counted reindeer has not begun to wait for it |
| SantaStandstill.RunsOut | laboratoria/9. Laboratorium/zad1/characters/reindeer.c:57-62 | from a crosswise lock, and from a missed broadcast, a run leads to a state where the program has not ended and no thread can step |
| SantaStandstill.StuckStep | laboratoria/9. Laboratorium/zad1/characters/elf.c:60-65 | whatever thread steps, a crosswise lock stays one and there is less left to do |
| SantaStandstill.MissedStep | laboratoria/9. Laboratorium/zad1/characters/reindeer.c:57-62 | whatever thread steps, the missing reindeer stays missing, Santa goes on to sleep, and there is less left to do |
| SantaStandstill.DeadMeansParked | laboratoria/9. Laboratorium/zad1/characters/elf.c:34-79 | when no elf is on its way to wake Santa, mutexes alone never block everybody: in a standstill every thread is parked |
| SantaStandstill.DeadIff | laboratoria/9. Laboratorium/zad1/characters/santa.c:19-43 | with at least one reindeer and one delivery a standstill is reachable exactly when a group is not empty and there are enough elves for one or a second delivery is wanted |
| TicTacToe.LastMoveDecides | laboratoria/10. Laboratorium/zad2/server.c:511-532 | the check through the last move says WON exactly when any of the eight lines is complete, and DRAW exactly when the board is full without one |
| TicTacToe.HandleKeepsHistory | laboratoria/10. Laboratorium/zad2/server.c:447-451 | accepted and rejected messages keep the counter of remaining moves and the alternation of players |
| TicTacToe.EveryMatch | laboratoria/10. Laboratorium/zad2/server.c:439-475 | for every sequence of messages the counter is the number of empty fields, players alternate, never both have a line, and the result is the one the whole board shows |
| TicTacToe.AcceptedExactly | laboratoria/10. Laboratorium/zad2/server.c:468-475 | for every sequence of messages: while the game goes on the next message is accepted exactly when its symbol is the one whose turn the number of accepted moves gives, the field is one of 1 to 9 and no accepted move took it; it then marks that field and no other |
| TicTacToe.LinesAreStraight | laboratoria/10. Laboratorium/zad2/server.c:511-532 | a player has a line exactly when he has three fields in a row, column or diagonal of the board |
| TicTacToe.ResultsComplement | laboratoria/10. Laboratorium/zad2/server.c:561-565 | one player won exactly when the other lost; a draw is a draw and a game that goes on goes on for both |
| Server.Table.constructor | laboratoria/10. Laboratorium/zad2/server.c:5-7 | the table at start satisfies the invariant and is empty |
| Server.Table.Detach | laboratoria/10. Laboratorium/zad2/server.c:211-232 | clears one slot, unties its opponent, frees the game with one call |
| Server.Table.RemoveConnection | laboratoria/10. Laboratorium/zad2/server.c:211-239 | removes the connection and its opponent and nobody else, lowers the count by one or two, clears the waiting slot if it was one of them; each client and the game get one call of free |
| Server.Table.Release | laboratoria/10. Laboratorium/zad2/server.c:211-239 | after a removal what is not in use any more has been freed once, what is in use not at all |
| Server.RemovedKeepsTable | laboratoria/10. Laboratorium/zad2/server.c:211-239 | a removal keeps links symmetric, nicknames distinct, the count exact and at most one client unpaired |
| Server.RemovedClients | laboratoria/10. Laboratorium/zad2/server.c:229-237 | the clients and games in use after a removal are those before without the freed ones |
| Server.RemovalInHalves | laboratoria/10. Laboratorium/zad2/server.c:226-234 | the recursive removal of the opponent after untying completes the removal of the pair |
| Server.Table.HandleDisconnect | laboratoria/10. Laboratorium/zad2/server.c:432-437 | the invariant holds after removing any client at any time |
| Server.Table.HandleMove | laboratoria/10. Laboratorium/zad2/server.c:439-475 | a message of the player whose turn it is with a free field of 1 to 9 marks that field and no other, passes the turn and takes one from the remaining moves, and is reported with complementary results; the pair is removed exactly when the game is over or a send fails; any other message changes nothing; a sender without an opponent is read through NULL, exactly |
| Server.MoveKeepsGame | laboratoria/10. Laboratorium/zad2/server.c:447-457 | a game that goes on after a move is again one with alternating players and no complete line |
| Server.GamesAfterMove | laboratoria/10. Laboratorium/zad2/server.c:447-457 | all other games are untouched by a move |
| Server.Table.StartGame | laboratoria/10. Laboratorium/zad2/server.c:345-372 | ties the pair; the game exists and nobody waits exactly when both start messages went out; succeeds exactly when all four messages did |
| Server.PairedKeepsLinks | laboratoria/10. Laboratorium/zad2/server.c:349-352 | a new pair has symmetric links, distinct symbols and a game of its own, and disturbs no other |
| Server.StartedKeepsTable | laboratoria/10. Laboratorium/zad2/server.c:362-371 | after a start nobody is unpaired and the count is one higher |
| Server.FailedPairing | laboratoria/10. Laboratorium/zad2/server.c:331-339 | taking back a start without a game removes the waiting client and frees the two clients |
| Server.Table.PairNewClient | laboratoria/10. Laboratorium/zad2/server.c:331-339 | without both start messages both clients are gone again; with them the pair has its game and nobody waits, and the server crashes in that state, by reading NULL in its error report, exactly when a state message was not sent |
| Server.Table.ParkNewClient | laboratoria/10. Laboratorium/zad2/server.c:341-403 | the new client is the waiting one, or the table is as before |
| Server.Table.FindEmptyConnection | laboratoria/10. Laboratorium/zad2/server.c:274-279 | the first empty slot, or none is empty |
| Server.Table.IsNicknameAvailable | laboratoria/10. Laboratorium/zad2/server.c:281-290 | true exactly for a nickname that is not the reserved one and that no client has |
| Server.Table.CreateClient | laboratoria/10. Laboratorium/zad2/server.c:315-343 | the whole new table, waiting slot and count for every pattern of failed sends, and exactly when the server crashes |
| Server.WhoIsIn | laboratoria/10. Laboratorium/zad2/server.c:315-403 | after a registration that waits the new client is in exactly when it was told so; after one that pairs both clients are in, tied to each other with one game and different symbols, exactly when there is a game, and neither is otherwise; nobody else is touched |
| Server.Table.Admit | laboratoria/10. Laboratorium/zad2/server.c:292-312 | the first empty slot, or why there is none for this nickname |
| Server.Table.RegisterNewClient | laboratoria/10. Laboratorium/zad2/server.c:292-313 | SERVER_FULL exactly when no slot is empty, USERNAME_TAKEN exactly for an unavailable nickname on a server with room, both changing nothing; otherwise the first empty slot is used |
| Server.Table.FindConnection | laboratoria/10. Laboratorium/zad2/server.c:262-270 | the first client with the address, or nobody has it |
| Server.Table.PingConnections | laboratoria/10. Laboratorium/zad2/server.c:182-209 | pings everybody up to the first message that cannot be sent; nothing in the table changes, so nobody is removed |
| Server.Table.HandlePing | laboratoria/10. Laboratorium/zad2/server.c:423-430 | only the status of one slot is set |
| Server.Table.ExitHandler | laboratoria/10. Laboratorium/zad2/server.c:80-90 | all slots are empty and everything ever allocated has been freed exactly once |
| Components.StrTokStep | laboratoria/5. Laboratorium/zad1/main.c:276-287 | repeated `strtok` calls give exactly the non-empty segments of the text, in order |
| Components.PartsCountSuffices | laboratoria/5. Laboratorium/zad1/main.c:263-273 | one slot per separator and one more is enough, and all are used exactly when no segment is empty |
| Components.TrimWhitespace | laboratoria/5. Laboratorium/zad1/main.c:294-310 | removes blanks at both ends |
| Components.SplitPipes | laboratoria/5. Laboratorium/zad1/main.c:263-292 | the array holds the trimmed segments in order and NULL after them, within its bounds |
| Components.GapsKeepUp | laboratoria/5. Laboratorium/zad1/main.c:350-362 | the counting pass, which skips every other of adjacent blanks, is never behind the tokens |
| Components.CountArgs | laboratoria/5. Laboratorium/zad1/main.c:350-362 | the count is at least the number of arguments |
| Components.SplitArgs | laboratoria/5. Laboratorium/zad1/main.c:324-348 | the array holds the arguments in order and NULL after them, within its bounds |
| CommandText.JoinedTokens | laboratoria/5. Laboratorium/zad1/main.c:263-292 | pieces joined by pipe signs between blanks, with any blanks at both ends, come apart into these pieces in their order |
| CommandText.WordTokens | laboratoria/5. Laboratorium/zad1/main.c:324-348 | words joined by blanks come apart into these words in their order |
| ComponentIds.GetCommandId | laboratoria/5. Laboratorium/zad1/main.c:204-226 | the number of the trailing digits plus one, an error without any; undefined exactly for NULL, an empty text and more than nine digits |
| ComponentIds.NamedCommand | laboratoria/5. Laboratorium/zad1/main.c:204-226 | a name followed by numeral k has number k + 1 exactly when the name does not itself end in a digit other than zero, blanks not counted and the first character apart, and there are at most nine digits |
| ComponentIds.BareNumeral | laboratoria/5. Laboratorium/zad1/main.c:211-225 | a name of digits only has the number of its numeral exactly when it has a second digit, at most ten, and the first is 0 |
| ComponentIds.LosesFirstDigit | laboratoria/5. Laboratorium/zad1/main.c:211 | the scan never looks at the first character |
| ComponentIds.AllOutcomes | laboratoria/5. Laboratorium/zad1/main.c:204-226 | NULL and the empty text are undefined; any other name is undefined exactly when it ends in more than nine digits, and an error exactly when it ends in none, blanks not counted and the first character apart |
| ComponentIds.NoDigitFails | laboratoria/5. Laboratorium/zad1/main.c:204-226 | a name without a digit behind its first character is an error |
| Interpreter.ParseCommand | laboratoria/5. Laboratorium/zad1/main.c:130-166 | a definition becomes its programs with their arguments, in order; a NULL is read exactly when a segment is empty |
| Interpreter.DefinitionComesBack | laboratoria/5. Laboratorium/zad1/main.c:130-166 | every non-empty list of argument lists of words without blanks and pipe signs, written as a definition, parses to exactly these lists in this order |
| Interpreter.DeclarationText | laboratoria/5. Laboratorium/zad1/main.c:178-197 | the text after '=' arrives as written exactly when a newline ends the line |
| Interpreter.DeclarationsOfMore | laboratoria/5. Laboratorium/zad1/main.c:168-202 | every line with '=' counts: the declarations of a file are those of its first lines followed by those of the rest |
| Interpreter.FirstBadLine | laboratoria/5. Laboratorium/zad1/main.c:168-202 | the first declaration whose name has no number decides: an error for a name without digits, undefined for too many, whatever follows it |
| Interpreter.LaterDeclarationWins | laboratoria/5. Laboratorium/zad1/main.c:101-128 | a line with a name, '=', a text and its newline, wherever it stands in a file, defines the number of the name as the text says, unless a later line declares the same number |
| Interpreter.DefinedExactly | laboratoria/5. Laboratorium/zad1/main.c:101-128 | a number has a definition exactly when some declaration has that number |
| Interpreter.GetCommandsList | laboratoria/5. Laboratorium/zad1/main.c:168-202 | all declarations in order and an upper bound of their numbers, or the way in which the first bad one fails |
| Interpreter.GetCommands | laboratoria/5. Laboratorium/zad1/main.c:101-128 | the table holds the last definition of every number; a NULL is read exactly when some definition has an empty segment |
| Interpreter.CountProcesses | laboratoria/5. Laboratorium/zad1/main.c:229-241 | the first pass finds all numbers and the length of the expansion, or the way in which the first bad name fails |
| Interpreter.AllFound | laboratoria/5. Laboratorium/zad1/main.c:229-241 | when every name has a number with a definition, the numbers found are theirs, in order |
| Interpreter.FirstNotFound | laboratoria/5. Laboratorium/zad1/main.c:229-241 | otherwise the first name that is not found decides: an error for a name without number, undefined for a NULL or empty name, too many digits or a number without definition |
| Interpreter.JoinParts | laboratoria/5. Laboratorium/zad1/main.c:243-260 | the second pass fills an array of that length with the expansion and a final NULL |
| Interpreter.DecodeCommand | laboratoria/5. Laboratorium/zad1/main.c:228-261 | the in-order concatenation of the definitions, NULL for a name without number, undefined for a NULL or empty name or a number without definition, whichever comes first |
| Interpreter.NamesMeanDefinitions | laboratoria/5. Laboratorium/zad1/main.c:204-261 | names that end in numerals expand to the last definitions of these numerals |
| Interpreter.CommandLineNames | laboratoria/5. Laboratorium/zad1/main.c:204-241 | the names that a line of names joined by pipe signs is taken apart into are these names in their order |
| Interpreter.Interpret | laboratoria/5. Laboratorium/zad1/main.c:74-99 | from the file and the text of a line to the processes: names that end in numerals, joined by pipe signs, become the last definitions of these numerals, in the order of the line |
| Interpreter.LineKeepsMeaning | laboratoria/5. Laboratorium/zad1/main.c:228-261 | the processes of a line together do what its components do one after the other |
| PipeWiring.Process.Connect | laboratoria/5. Laboratorium/zad1/main.c:389-407 | the child's whole descriptor table when it starts its program |
| PipeWiring.Process.LaunchChild | laboratoria/5. Laboratorium/zad1/main.c:375-430 | the child's table and the parent's, after success and after a failed `fork` |
| PipeWiring.Process.ExecCommandLine | laboratoria/5. Laboratorium/zad1/main.c:364-436 | all children are wired and the parent's table is as before exactly when no call fails; otherwise the first failing call decides: a failed `fork` leaves the table as before too, a failed `pipe` with one pipe open unless it is the first |
| PipeWiring.WriteEndOwner | laboratoria/5. Laboratorium/zad1/main.c:400-407 | the write end of pipe j is open only as standard output of process j |
| PipeWiring.ReadEndOwner | laboratoria/5. Laboratorium/zad1/main.c:390-397 | its read end is open only as standard input of process j + 1 |
| PipeWiring.OuterEnds | laboratoria/5. Laboratorium/zad1/main.c:398-400 | the pipeline reads and writes where the parent does |
| PipeWiring.OtherDescriptors | laboratoria/5. Laboratorium/zad1/main.c:389-407 | a child has every other descriptor of the parent as the parent has it, and no new one but the two ends of the last child's own pipe |
| PipeWiring.LastPipe | laboratoria/5. Laboratorium/zad1/main.c:398-400 | the pipe made for the last child is held, with both ends, by that child and by no other |
| PipeWiring.EndOfFilePropagates | laboratoria/5. Laboratorium/zad1/main.c:389-430 | whoever has exited, the reader of a pipe sees end-of-file exactly when its writer is gone, and the writer an error exactly when its reader is |
| PipeWiring.LeakKeepsPipeOpen | laboratoria/5. Laboratorium/zad1/main.c:370-373 | after a `pipe` that failed later than in the first round, the parent holds both ends of the pipe before it |
| RowFile.File.GetLineLength | laboratoria/5. Laboratorium/zad3/consumer.c:232-259 | the length of the line at the cursor, which stays where it was |
| RowFile.File.ReadLine | laboratoria/5. Laboratorium/zad3/consumer.c:261-279 | returns the line at the cursor and moves behind it |
| RowFile.File.ReadFileLines | laboratoria/5. Laboratorium/zad3/consumer.c:281-298 | the list holds the lines of the file |
| RowFile.LineList.AppendToFileRow | laboratoria/5. Laboratorium/zad3/consumer.c:172-203 | extends the row, after filling up with empty lines as far as needed |
| RowFile.UpdatedRow | laboratoria/5. Laboratorium/zad3/consumer.c:172-203 | the row grows by the content, every other row is as it was, and rows are added only up to it |
| RowFile.SavedInserts | laboratoria/5. Laboratorium/zad3/consumer.c:117-203 | whatever the content is, with newlines too: the new text is the old one with the content put in before the newline that ends its row, or, for a row the file does not have, with the missing newlines, the content and a newline at the end |
| RowFile.File.WriteDataToFile | laboratoria/5. Laboratorium/zad3/consumer.c:300-312 | the lines from the start of the file, followed by what a longer old file had there |
| RowFile.SavedIsLongerText | laboratoria/5. Laboratorium/zad3/consumer.c:139-155 | the new text is never shorter than the old, so no stale tail remains |
| RowFile.File.SaveToResultsFile | laboratoria/5. Laboratorium/zad3/consumer.c:117-160 | the file is exactly the joined updated lines |
| RowFile.LinesOfJoin | laboratoria/5. Laboratorium/zad3/consumer.c:281-312 | reading undoes writing, for lines without inner newlines |
| RowFile.RowsSurviveReading | laboratoria/5. Laboratorium/zad3/consumer.c:185-200 | the next record finds the lines this one wrote exactly when the content has no newline |
| Fifo.FormatRowNum | laboratoria/5. Laboratorium/zad3/producer.c:76-97 | four digits of the row number, refused exactly above 4096 |
| Fifo.Produce | laboratoria/5. Laboratorium/zad3/producer.c:54-74 | the records of the whole input, in order, the last filled up with spaces; nothing for a row above 4096 |
| Fifo.RemoveTrailing | laboratoria/5. Laboratorium/zad3/consumer.c:100-107 | the loop for trailing blanks ends in its first round and keeps all N characters of any content |
| Fifo.TrimmedOnArrival | laboratoria/5. Laboratorium/zad3/consumer.c:100-109 | a content arrives without trailing blanks exactly when it does not end in a blank or newline |
| Fifo.RecordParses | laboratoria/5. Laboratorium/zad3/consumer.c:95-103 | reading a record gives back its row and its characters |
| Fifo.Pipe.ReadFromFifo | laboratoria/5. Laboratorium/zad3/consumer.c:84-115 | takes exactly the next record off the pipe, 0 at its end |
| Fifo.Consume | laboratoria/5. Laboratorium/zad3/consumer.c:66-82 | the file has all records in it, up to the first with row number 0, and fails exactly if there is one |
| Interleaving.MergedFromStreams | laboratoria/5. Laboratorium/zad3/producer.c:63-70 | an interleaving has exactly the steps of its streams |
| Interleaving.SomeSchedule | laboratoria/8. Laboratorium/zad1/main.c:235-241 | any set of streams can be run to its end |
| FifoMerge.MergeKeepsRows | laboratoria/5. Laboratorium/zad3/producer.c:63-70 | in every interleaving the records of a producer with a row of its own are in its order |
| FifoMerge.RecordsCarryInput | laboratoria/5. Laboratorium/zad3/producer.c:58-68 | a producer's records carry its input, filled up with spaces |
| FifoMerge.RowsCollect | laboratoria/5. Laboratorium/zad3/consumer.c:66-82 | each row ends up with what the records of that row carry, in order |
| FifoMerge.RowsArrive | laboratoria/5. Laboratorium/zad3/consumer.c:66-203 | for all producers with distinct rows and all interleavings, every row is its producer's input exactly when no input has a newline |
| FifoMerge.MergeOfWires | laboratoria/5. Laboratorium/zad3/producer.c:63-70 | the pipe carries the printed records in the order of the records |
| FifoMerge.Transfer | laboratoria/5. Laboratorium/zad3/consumer.c:36-63 | producers, pipe and consumer together: the consumer succeeds, and the file has every producer's input in its row exactly when no input has a newline |
| FifoMerge.OtherRowsEmpty | laboratoria/5. Laboratorium/zad3/consumer.c:172-183 | a row that is nobody's is empty |
| NegativeImage.BlockOwner | laboratoria/8. Laboratorium/zad1/main.c:317-318 | every column is in the block of exactly one thread, for all widths and numbers of threads |
| NegativeImage.NumbersOwner | laboratoria/8. Laboratorium/zad1/main.c:275-276 | every colour below a multiple of the share is in exactly one thread's range, the others in none |
| NegativeImage.LeastWidth | laboratoria/8. Laboratorium/zad1/main.c:317 | the width of a block is the least with which the threads cover all columns |
| NegativeImage.ThreadsDisjoint | laboratoria/8. Laboratorium/zad1/main.c:283-330 | no two threads write the same pixel |
| NegativeImage.BlockMethod | laboratoria/8. Laboratorium/zad1/main.c:311-330 | one thread writes the negative into exactly its columns |
| NegativeImage.NumbersMethod | laboratoria/8. Laboratorium/zad1/main.c:268-292 | one thread writes the negative exactly where the colour is in its range |
| NegativeImage.BlockMethodNegates | laboratoria/8. Laboratorium/zad1/main.c:324-330 | every interleaving of the threads ends in the negative image |
| NegativeImage.BlockMethodSums | laboratoria/8. Laboratorium/zad1/main.c:324-326 | under every schedule a pixel and its result add up to 255; a brighter one wraps around in the unsigned short |
| NegativeImage.TwiceIsSource | laboratoria/8. Laboratorium/zad1/main.c:311-330 | the method run on its own result, with any numbers of threads and schedules, gives the source back |
| NegativeImage.NumbersMethodResult | laboratoria/8. Laboratorium/zad1/main.c:282-292 | every interleaving gives the same image; a pixel is right exactly when its colour is below the dealt-out multiple, or is 255 |
| NegativeImage.NumbersMethodSums | laboratoria/8. Laboratorium/zad1/main.c:282-292 | so too for every pixel whose colour was dealt out to a thread |
| NegativeImage.NumbersMethodComplete | laboratoria/8. Laboratorium/zad1/main.c:275-276 | every image of a size with colours up to M comes out as its negative under every schedule exactly when there are no pixels, or the number of threads divides the number of colours, or only 255 is left over, or only colours no pixel can have |
| Messages.Parser.StrToL | laboratoria/6. Laboratorium/zad2/lib/libshared.c:79 | the number at the start of the text, limited to a long, with ERANGE exactly when it was limited |
| Messages.Parser.ReadLong | laboratoria/6. Laboratorium/zad2/lib/libshared.c:71-87 | takes one field off the buffer; a zero fails when errno was set |
| Messages.Parser.ReadMessage | laboratoria/6. Laboratorium/zad2/lib/libshared.c:13-29 | parses the five fields or gives up at the first bad one |
| Messages.FieldParses | laboratoria/6. Laboratorium/zad2/lib/libshared.c:71-87 | a printed number of any 64-bit value comes back without its sign, the smallest as the largest with ERANGE, zero as an error when errno was set |
| Messages.RoundTrip | laboratoria/6. Laboratorium/zad2/lib/libshared.c:13-47 | parsing undoes printing exactly for messages with a body that is not empty and has no '-', numbers that are not negative (or the smallest int), and no zero unless errno is clear |
| Messages.AcceptedExactly | laboratoria/6. Laboratorium/zad2/lib/libshared.c:13-29 | any text is taken for a message exactly when it has five fields and no number field reads as zero with errno set or, cut to an int, as -1; the message has what the fields read as |
| Messages.NumberReads | laboratoria/6. Laboratorium/zad2/lib/libshared.c:79 | blanks, a sign and digits before anything but a digit are read as the number they show |
| Messages.DecimalIsNumber | laboratoria/6. Laboratorium/zad2/lib/libshared.c:31-47 | a printed number reads as itself, has a '-' exactly when it is negative and no leading zero |
| Messages.TextFields | laboratoria/6. Laboratorium/zad2/lib/libshared.c:31-47 | the text of a message without '-' inside has the five printed fields, an empty body as "(null)" |
| Messages.TextFits | laboratoria/6. Laboratorium/zad2/lib/libshared.h:11-12 | the text of every message has at most 1080 characters and fits the buffer with its terminator |
| Messages.WriteMsgStr | laboratoria/6. Laboratorium/zad2/lib/libshared.c:31-47 | the buffer holds the text and its terminator, and no write is outside it |
| Handshake.ExecKeepsInv | laboratoria/4. Laboratorium/zad3b/sender.c:216-249 | every step keeps the one message of the handshake and the exact counts on both sides |
| Handshake.NeverCoalesces | laboratoria/4. Laboratorium/zad3b/catcher.c:214-237 | at most one signal is pending, none is sent while one is, and the sender is at most one ahead of the replies |
| Handshake.NoDeadlock | laboratoria/4. Laboratorium/zad3b/sender.c:235-239 | until both have ended, one of them can step |
| Handshake.AlwaysEnds | laboratoria/4. Laboratorium/zad3b/sender.c:216-240 | every run is finite, and one that cannot go on has ended both processes |
| Handshake.FinalCounts | laboratoria/4. Laboratorium/zad3b/catcher.c:239-256 | everything really sent is received and replied to; what the two report, depending on which counts were interrupted |
| Handshake.CountsAgree | laboratoria/4. Laboratorium/zad3b/sender.c:242-249 | both report the number asked for exactly when no count was interrupted |
| Handshake.NothingLate | laboratoria/4. Laboratorium/zad3b/sender.c:109-135 | for every number there is a run in which all counts agree |
| Handshake.OneTooMany | laboratoria/4. Laboratorium/zad3b/sender.c:117-133 | for every number there is a run that sends one signal too many without the sender knowing |
| Handshake.OneTooFew | laboratoria/4. Laboratorium/zad3b/catcher.c:68-89 | for every number there is a run after which the catcher reports one reply too few |
| Handshake.StopUncounted | laboratoria/4. Laboratorium/zad3b/sender.c:113-134 | for every number there is a run after which the sender reports one signal too few |

## Left out

- The steps of chefs, deliverers, Santa, elves, reindeer, sender and catcher are functions on state values, not methods on shared objects: they interleave at every operation, which sequential methods with frames cannot say. The memory they share in lab 7 is also a class, whose methods compute what the steps do.
- Kitchen.Pizzeria.MovePizzaToTable: takes the slot index to be inside the oven; that it is so is `PosixSafety.OvenSlotsOwned`.
- Semaphore operations that fail (a removed semaphore, a signal), and termination of the pizzeria by SIGINT.
- SantaStandstill.DeadIff: speaks of programs with at least one reindeer and one delivery, as the original is set up. Whether a single thread starves while others go on, and spurious wake-ups of `pthread_cond_wait`, are not modelled.
- SantaRounds.AnyNumberOfGroups: speaks of programs with at least one reindeer, as the original is set up.
- SantaRounds.ProgramEnds: speaks of programs with at least one reindeer and groups of at least one elf, as the original is set up.
- Printing, sleeping, argument reading, sockets, epoll, installation of handlers and failed allocations; a send is a success or a failure, a random choice a parameter.
- Server.Table.PairNewClient: after the NULL read the server is taken to end; nothing is said about what follows.
- Server.Table.RegisterNewClient: the search for a slot and the creation of the client are two critical sections in the server and one step here; in between only the pinging thread can take the mutex, and it changes nothing (`Server.Table.PingConnections`).
- Client addresses are non-zero numbers, and sending the DISCONNECT message of a removal has no effect on the table.
- Lab 10 zad1, a near copy of the server.
- Interpreter.GetCommandsList: the list of nodes is a sequence, and the lines have already been read.
- Interpreter.Interpret: the names on the line end in numerals; for other lines `Interpreter.DecodeCommand` says what happens.
- PipeWiring.Process.ExecCommandLine: standard input and output are open in the parent, since `pipe` would otherwise hand out their numbers; `dup2` and `exec` succeed; waiting for the children is not modelled.
- PipeWiring.Process.Connect: standard input and output are open in the parent.
- PipeWiring.Process.LaunchChild: standard input and output are open in the parent.
- RowFile.LineList.AppendToFileRow: the linked list is a sequence and the pointer to a node its position.
- RowFile.File.GetLineLength: the file has no NUL, which the consumer never writes.
- RowFile.File.ReadLine: the file has no NUL, which the consumer never writes.
- RowFile.File.ReadFileLines: the file has no NUL, which the consumer never writes.
- RowFile.File.SaveToResultsFile: the file it starts from has no NUL and ends its last line, as the empty file and every save leave it.
- Fifo.Pipe.ReadFromFifo: only well-formed records arrive, as the producers write them; N is positive.
- Fifo.Consume: only well-formed records arrive, as the producers write them; N is positive.
- FifoMerge.Transfer: the consumer sees no end-of-file before the last producer is done.
- Fifo.Produce: row numbers are not negative and inputs have no NUL, which would cut a record short.
- Several consumers on one file, where data is lost between reading and rewriting it.
- The shared maximum colour of lab 8, which threads update without a lock, and rounding in `ceil`: the share is the integer ceiling.
- Messages.Parser.ReadMessage: `strcpy` on overlapping buffers copies forward; printing a NULL string gives "(null)".
- Handshake: the modes "sigqueue" and "sigrt", in which signals queue.
- Labs 1 to 3, the rest of lab 4, lab 5 zad2, the servers and clients of lab 6 and the tests of the course.
