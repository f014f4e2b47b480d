# Tower of Hanoi engine, modelled in Dafny

The program solves the Tower of Hanoi without recursion. Three towers (`tower1`, `tower2`,
`tower3`) are joined in a ring. Each tower is a stack of numbered disks: disk 0 is the
smallest, and `EMPTY` (-1) stands for "no disk". A vector of `num_disks` bits, `disk_bits`,
is a binary counter. Each call of `add_one` adds 1 and answers the index of the bit that
went from 0 to 1: that is the disk to move. When every bit rolls over, it answers -1.
`play` moves disks in a loop until `tower3` holds all of them. For each answer it:
- walks the ring from `tower1` to the tower whose top is that disk, and pops it;
- walks on from that tower's successor, past every tower whose top is smaller;
- pushes the disk onto the first tower that is empty or has a larger top.

The model has four modules, one per part of the program:

- `TowerModel` (`tower.dfy`): the `Tower` class. Its linked list of `Disk` nodes is kept as the
  sequence of disk numbers, bottom to top. It also has the bottom disk, the size counter and
  the index of the next tower in the ring. `Top`, `GetSize`, `Empty` and `GetNext` are
  functions. `SetNext`, `Push`, `Pop` and the destructor's pop loop are methods.
- `Counter` (`counter.dfy`): `add_one` as a function on the bit sequence. The module also
  holds its value as a binary number and the answers of a run of calls. The main theorem is
  that counting the low n bits from 0 to 2^n - 1 answers the ruler sequence
  0, 1, 0, 2, 0, 1, 0, ...
- `Moves` (`moves.dfy`): one pass of the play loop, stated on values. The state is three
  sequences of disks. The two searches walk the ring one tower at a time. The main theorem
  is that the ruler sequence of n moves a block of n disks one or two towers along the ring,
  whatever larger disks lie underneath. From it follow:
  - the whole game ends with every disk on `tower3`, and the loop test of `play` stops it
    exactly after the last answer;
  - every pass keeps each tower strictly decreasing, with every disk on exactly one tower;
  - the number of moves.
- `HanoiModel` (`hanoi.dfy`): the `Hanoi` class. It has three `Tower` objects, the
  `disk_bits` array and imperative methods with loops: the constructor, `set_init_disks`,
  `add_one`, the two searches and `play`. Each method is proved against the functions of
  `Counter` and `Moves`.

The number of moves depends on the parity of N, as the comment at `hanoi.cpp:31-33` says:
- For even N, one count of the counter moves every disk to `tower3`: 2^N - 1 moves, with no
  roll-over.
- For odd N, the same count lands every disk on `tower2`. The counter then wraps and answers
  -1, and a second count carries the disks on to `tower3`: 2 (2^N - 1) moves.
- A single disk therefore moves twice, by way of `tower2` (`Moves.OneDiskGame`).
- Two disks take three moves with no roll-over (`Moves.TwoDiskGame`).

## Model

| member | source | states |
|---|---|---|
| TowerModel.TopOf | tower.h:66-74 | the top of a tower is EMPTY exactly when it has no disks, and otherwise is its last (topmost) disk |
| TowerModel.BottomOf | tower.h:128-129 | bot_disk is null (EMPTY) exactly when there are no disks, and otherwise is the first disk |
| TowerModel.Tower.constructor | tower.h:43 | a new tower has no disks, size 0, no bottom disk and no next tower |
| TowerModel.Tower.Top | tower.h:66-74 | top() is EMPTY exactly when the tower has no disks, and otherwise is its topmost disk |
| TowerModel.Tower.GetSize | tower.h:90 | getSize() of a consistent tower is its number of disks |
| TowerModel.Tower.Empty | tower.h:96-103 | empty() holds exactly when top() is EMPTY, and for a consistent tower exactly when the size is 0 |
| TowerModel.Tower.SetNext | tower.h:108-119 | getNext() then answers the tower passed in, and the disks, bottom and size are unchanged |
| TowerModel.Tower.Push | tower.cpp:11-25 | the disk goes on top, the size grows by one and bottom and size stay consistent; on an empty tower it is also the bottom; otherwise the old top sits right below it and the bottom is kept |
| TowerModel.Tower.Pop | tower.cpp:28-56 | on an empty tower nothing changes; otherwise only the top disk goes and the size drops by one; the disk below becomes the top; popping the last disk clears the bottom |
| TowerModel.Tower.Destroy | tower.cpp:3-8 | the destructor loop ends with the tower empty after exactly as many pops as the tower had disks |
| TowerModel.PushThenPop | tower.cpp:11-56 | a push followed by a pop leaves disks, size, bottom and next as they were |
| Counter.Increment | hanoi.cpp:90-120 | add_one keeps the number of bits and answers -1 or a bit index below N |
| Counter.IncrementBits | hanoi.cpp:92-119 | add_one answers -1 exactly when every bit was 1, and then all bits are 0; otherwise the answer i had bit i at 0, now 1, bits below i went from 1 to 0, and bits above i are unchanged |
| Counter.IncrementSkipsOnes | hanoi.cpp:98-102 | add_one clears the run of low 1 bits and goes on from the first other bit, shifting its answer by the length of the run |
| Counter.CarryAll | hanoi.cpp:98-111 | from all 1 bits, add_one clears every bit and answers -1 |
| Counter.CarryAt | hanoi.cpp:112-119 | when bits below i are 1 and bit i is 0, add_one clears the bits below i, sets bit i, keeps the bits above and answers i |
| Counter.ValueZeros | hanoi.cpp:7-8 | the all-zero counter the constructor sets up stands for 0 |
| Counter.ValueBound | hanoi.h:96-102 | N bits, bit i the 2^i place, stand for a number below 2^N |
| Counter.IncrementValue | hanoi.h:60-72 | add_one adds 1 to the number; it answers -1 exactly when the number was 2^N - 1, which wraps to 0 |
| Counter.RunCounter | hanoi.cpp:26-29 | m calls of add_one leave N bits and give m answers |
| Counter.RunCounterAdd | hanoi.cpp:26-29 | m1 + m2 calls are m1 calls followed by m2 calls from where they left the counter |
| Counter.RulerFacts | hanoi.h:66-68 | one count of n bits gives 2^n - 1 answers, each a disk below n |
| Counter.CountUpToOnes | hanoi.cpp:90-120 | counting the low n bits from all 0 to all 1 answers the ruler sequence of n and leaves the bits above alone |
| Counter.CounterWraps | hanoi.cpp:29-36 | from all zeros, 2^N - 1 calls answer the ruler sequence and reach all ones; the next call answers -1 and brings back all zeros |
| Counter.CounterCountsCalls | hanoi.h:96-102 | within the first cycle (fewer than 2^N calls), disk_bits read as a binary number equals the number of add_one calls made |
| Counter.CounterCycles | hanoi.h:71-72 | 2^N more calls of add_one, from the all-zero counter, bring disk_bits back to where it was |
| Counter.CounterCountsCallsMod | hanoi.h:96-102 | after q full cycles and r more calls, r below 2^N, disk_bits reads r |
| Counter.CounterValueMod | hanoi.h:96-102 | for every number m of add_one calls, disk_bits read as a binary number is m mod 2^N |
| Moves.Next | hanoi.cpp:11-13 | the successor of tower i in the ring is tower (i + 1) mod 3 (tower1 -> tower2 -> tower3 -> tower1), never the tower itself |
| Moves.Desc | hanoi.h:53-57 | the block pushed by set_init_disks has N disks, N-1 at the bottom down to 0 on top |
| Moves.FindTop | hanoi.cpp:43-46 | a tower the source search stops at has the wanted disk on top |
| Moves.SourceOf | hanoi.cpp:39-46 | a tower the source search from tower1 names has the disk on top |
| Moves.SourceOfFirst | hanoi.cpp:39-46 | the source search from tower1 stops at the first tower whose top is the disk, and fails to stop exactly when no top is |
| Moves.FindRoom | hanoi.cpp:59-61 | a tower the destination search stops at is empty or has a top not smaller than the disk |
| Moves.DestOf | hanoi.cpp:52-61 | a tower the destination search from the source's successor names is empty or has a top not smaller than the disk |
| Moves.DestOfFirst | hanoi.cpp:52-61 | the destination search passes over towers whose top is smaller than the disk, and fails to stop exactly when every top is smaller |
| Moves.Lift | hanoi.cpp:49 | the pop takes exactly the top disk off the source tower |
| Moves.Put | hanoi.cpp:65 | the push leaves the disk on top of the destination tower |
| Moves.StepTotal | hanoi.cpp:34-65 | a pass of the play loop that completes neither loses nor makes a disk |
| Moves.RunAppend | hanoi.cpp:26-76 | running two lists of answers one after the other is running their concatenation |
| Moves.RulerMovesBlock | hanoi.cpp:26-65 | the ruler sequence of n moves a block of disks n-1..0 one tower along the ring for odd n and two for even n, over any larger disks |
| Moves.Plan | hanoi.cpp:26-29 | the answers of add_one over the whole game, one per pass of the play loop: PlanCalls(N) of them, 2^N - 1 for even N and 2^(N+1) - 1 for odd N |
| Moves.PlanShape | hanoi.cpp:29-36 | the answers of the game are one count of the ruler sequence for even N, and two counts with the -1 of the roll-over between them for odd N |
| Moves.PlanSolves | hanoi.h:40-44 | the answers of the game move every disk from tower1 to tower3 |
| Moves.PlanMoves | hanoi.cpp:30-35 | the game moves a disk 2^N - 1 times for even N and 2 (2^N - 1) times for odd N |
| Moves.OneDiskGame | hanoi.cpp:31-33 | one disk goes first to tower2, the counter wraps, and it reaches tower3 in a second move |
| Moves.TwoDiskGame | hanoi.cpp:26-36 | two disks are moved 0, 1, 0 with no roll-over |
| Moves.DescCount | hanoi.h:53-57 | set_init_disks pushes every disk 0..N-1 exactly once and nothing else |
| Moves.InitialLegal | hanoi.cpp:84-86 | after set_init_disks every tower is decreasing and each disk is on exactly one tower |
| Moves.SizesSum | hanoi.cpp:26 | in a legal state the three tower sizes add up to N |
| Moves.PoolLift | hanoi.cpp:49 | the pop takes exactly its disk out of the set of disks on the towers and keeps the tower decreasing |
| Moves.PoolPut | hanoi.cpp:65 | the push adds exactly its disk to the set of disks on the towers |
| Moves.PutKeepsDecreasing | hanoi.cpp:53-65 | when the disk is on no tower, a tower the destination search accepts stays strictly decreasing with the disk on top |
| Moves.StepKeepsLegal | hanoi.cpp:34-65 | each pass keeps every tower strictly decreasing and every disk 0..N-1 on exactly one tower |
| Moves.SolvedWhenFull | hanoi.cpp:26 | a legal state with N disks on tower3 is the solved state, so the loop test of play is enough |
| Moves.SmallestMovesRight | hanoi.cpp:52-61 | disk 0 always goes to the successor of its tower |
| Moves.PlanEndsSolved | hanoi.cpp:24-26 | after every answer of the game has been played, all disks are on tower3 |
| Moves.BlockKeepsBase | hanoi.cpp:26-65 | while the ruler sequence of n moves a block of n disks, every pass completes and no tower drops below the larger disks it started with |
| Moves.BlockNotDone | hanoi.cpp:26-65 | before the ruler sequence of n is over, the block's target tower does not yet hold all n disks of the block |
| Moves.PlanNotDone | hanoi.cpp:26 | before the last answer of the game, tower3 holds fewer than N disks, so the loop test of play does not stop the game early |
| Moves.PlanNext | hanoi.cpp:29-65 | the answer add_one gives on pass k is answer k of the game, and the pass completes both searches |
| Moves.PlayedNext | hanoi.cpp:28-66 | one more pass leads where the first k + 1 answers of the game lead, with the counter after k + 1 calls and the moves counted |
| Moves.MoveCountExtend | hanoi.cpp:34-65 | one more answer adds a move unless it is -1 |
| Moves.PlayStops | hanoi.cpp:26-77 | tower3 holds N disks exactly when all PlanCalls(N) answers have been played, and then every disk is on tower3 after 2^N - 1 moves for even N and 2 (2^N - 1) for odd N |
| Moves.PlayGoesOn | hanoi.cpp:26 | while tower3 is not full, N is at least 1 and answers of the game remain |
| HanoiModel.Hanoi.constructor | hanoi.cpp:5-17 | the counter is all zeros with one bit per disk, the ring is tower1 -> tower2 -> tower3 -> tower1, and every disk is on tower1 |
| HanoiModel.Hanoi.SetInitDisks | hanoi.cpp:80-87 | tower1 gets disks N-1 down to 0 on top of what it held; the unsigned loop counter stops when it wraps below 0 |
| HanoiModel.Hanoi.AddOne | hanoi.cpp:90-120 | the loop over disk_bits leaves the bits and answer of Counter.Increment |
| HanoiModel.Hanoi.FindSource | hanoi.cpp:39-46 | the walk along the next links from tower1 stops at the tower the source search names |
| HanoiModel.Hanoi.PopFrom | hanoi.cpp:49 | popping the source tower lifts its top disk and leaves the other towers alone |
| HanoiModel.Hanoi.FindDestination | hanoi.cpp:52-61 | the walk along the next links from the source's successor stops at the tower the destination search names |
| HanoiModel.Hanoi.PushOnto | hanoi.cpp:65 | pushing onto the destination puts the disk there and leaves the other towers alone |
| HanoiModel.Hanoi.MoveDisk | hanoi.cpp:38-65 | the body of the play loop for an answer other than -1 does exactly one pass of Moves.Step |
| HanoiModel.Hanoi.PlayPass | hanoi.cpp:28-66 | one pass of the loop of play calls add_one and, unless it answers -1, moves that disk; the state then is where one more answer of the game leads |
| HanoiModel.Hanoi.Play | hanoi.cpp:20-77 | from the constructed state, play terminates with every disk on tower3, after exactly PlanCalls(N) passes, of which 2^N - 1 move a disk for even N and 2 (2^N - 1) for odd N |

## Left out

- Rendering: the `draw->draw_Hanoi` calls in `play` (`hanoi.cpp:22`, `hanoi.cpp:75`) and the whole `Drawer` are not part of this model. This includes its frame delay, its colours and its quit event, which ends the process.
- Console output: `Tower::printTower` and `Hanoi::print_disk_bits` are not modelled.
- `main.cpp` (reading N and setting up the window) is not part of this model. Its 1..10 range check is not required: the model handles every N, including N = 0, where `play` returns at once.
- Disk nodes: the `Disk` nodes with their `prev` and `next` links, and the `new` and `delete` of nodes, are kept as a sequence of disk numbers. The tower's `next` link is kept as a ring index (0, 1 or 2, or -1 for null). Pointer identity and memory reclamation are not modelled.
- Integer widths: `num_disks` is an unbounded natural number. The conversion of `add_one`'s `size_t` index to `int` is not modelled. The wrap of `set_init_disks`' unsigned counter below 0 is written out as -1.
- TowerModel.Tower.Push: takes a natural disk number where the code takes any `int`, so that EMPTY never stands for a disk.
- HanoiModel.Hanoi.FindSource: requires that some tower has the disk on top. Without that, the code's loop would walk the ring forever. `Play` proves the requirement holds for every answer of the game.
- HanoiModel.Hanoi.FindDestination: requires that some tower accepts the disk, for the same reason.
