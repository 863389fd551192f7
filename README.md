# Neural-network snake, modelled in Dafny

A terminal snake game is played by small fully connected neural networks,
and the networks are bred by a simple genetic algorithm. This project models
the core of that program and proves properties of the model.

- **The game** (`snake_game.dfy`, module `Snake`). Class `Game` holds the
  `SnakeGame` state: the field size, the body array, the direction, the
  hunger budget, the food, the background buffer, the Mersenne-Twister
  stream, and the eight features fed to the network.
  - One tick moves the snake, recomputes the features, and eats and
    re-places the food when the head reaches it. It then runs the terminal
    check (self-hit, then wall, then hunger) and redraws the background when
    asked.
  - Every step is proved against a value-level specification: `Moved`,
    `HitDist`/`Scan`, `FoodDist`, `Verdict` and `Rendered`.
- **The networks** (`neural_network.dfy`, module `NeuralNet`). Class
  `Network` keeps the C layout: four flat buffers for weights, biases,
  outputs and deltas, with the layers packed one after the other.
  - Forward propagation, back propagation, the randomize family, crossover,
    duplication and the binary save/load format are proved against `Forward`,
    `LayerDelta`/`Trained`, `MutateNet`, `Cross` and `Encode`/`Decode`.
- **The elite list** (`neural_network_elite.dfy`, module `Elite`). The
  circular linked list is modelled as a sequence, head first, ordered by
  descending goodness. It is specified by `Added`, with save/load as
  `EliteEncode`/`EliteDecode`.
- **The driver's decisions** (`n_snake.dfy`, module `Driver`):
  - the first-maximum pick of `_find_max_in_array`;
  - the network input built from the game's features;
  - one decision tick;
  - the generation/best/elite-admission rule of `ai_progress`.
- **Oracles** (`oracle.dfy`, module `Oracle`). The C library's `rand()`,
  the Mersenne-Twister `genRandLong` and `FILE` streams become explicit
  objects: a fixed stream of draws with a cursor, or a record sequence with a
  position.

Randomness is modelled as a given stream of draws, so every random operation
states exactly which draws it consumed. A seed is replaced by the stream it
would produce. `float` is modelled as `real`. Sigmoid and `tanh` are supplied
by the caller as the `Curves` pair.

## Model

| member | source | states |
|---|---|---|
| Snake.FromCode | snake_game.h:21-27 | the codes 0..4 name UP, DOWN, LEFT, RIGHT and NONE in enum order: decoding then encoding gives the code back |
| Snake.Steer | snake_game.c:438-465 | the direction left is the request or the old one, and the request is refused exactly when the guard is on and it reverses the old direction |
| Snake.Moved | snake_game.c:91-132 | a move keeps the length; with a direction the head steps that way and every other segment takes its predecessor's place, and without one nothing moves |
| Snake.FoodDist | snake_game.c:273-276 | stepping from the head by the DOWN and RIGHT offsets, or back by the UP and LEFT ones, reaches the food |
| Snake.ScanStep | snake_game.c:231-272 | one segment lowers the bound of the direction it lies in, to one less than its gap, only when that gap is below the bound |
| Snake.Scan | snake_game.c:231-272 | the scan over the body never raises any bound it starts from |
| Snake.HitDist | snake_game.c:212-282 | `dist_to_hit`: four distances, one per direction, each the minimum of the wall distance and the body scan's bound |
| Snake.HitDistNearest | snake_game.c:278-281 | each hit distance is at most both the wall distance and the body scan in that direction, and equals one of them |
| Snake.Verdict | snake_game.c:489-500 | when the snake hits itself, the wall or runs out of steps the game is over with a cause; otherwise the game-over flag and cause are unchanged |
| Snake.Performance | snake_game.c:590-603 | 0 without score; otherwise, times the steps used, it is the score squared times the steps spent reaching food |
| Snake.Game.Score | snake_game.c:572-577 | the segments behind the head: for a valid game, at least 0 and less than the number of cells |
| Snake.IndexInRange | snake_game.c:285-288 | a cell inside the field maps to an index of the `x*y` buffers |
| Snake.IndexInjective | snake_game.c:285-288 | distinct cells inside the field map to distinct buffer indices |
| Snake.SteerNeverReverses | snake_game.c:438-465 | with the guard on, the new direction is never the exact reverse of the old one |
| Snake.SteerFree | snake_game.c:438-465 | without the guard, or when the request does not reverse, the request is taken as is |
| Snake.MovedBody | snake_game.c:91-132 | a move keeps the length, drops the old tail and adds the stepped head (as multisets), puts the new head one cell from the old one, and keeps a connected body connected |
| Snake.FoodDistMeasures | snake_game.c:212-282 | the food features are opposite in pairs, and the magnitudes of the DOWN and RIGHT offsets sum to the Manhattan distance from the head to the food |
| Snake.HitWithinWalls | snake_game.c:217-281 | each hit distance is at most the distance to the wall in that direction |
| Snake.LoneSnakeSeesWalls | snake_game.c:212-282 | a one-segment snake's hit distances are exactly its wall distances |
| Snake.ScanAtMostGap | snake_game.c:231-272 | in each direction, the body scan never reports more than the distance to any segment aligned with the head in that direction |
| Snake.ScanIsSomeGap | snake_game.c:231-272 | the scan never exceeds its start value, and what it reports is either that value or one less than the gap to some aligned segment |
| Snake.SegmentOnHead | snake_game.c:231-281 | when a segment lies on the head's cell, the UP hit distance is at most 0, and exactly -1 for a two-segment snake whose head is not above the field |
| Snake.ScanCanOvershoot | snake_game.c:245-269 | the scan compares against the stored distance minus one, so a nearer segment seen after a farther one can be missed; a concrete body where the reported UP distance exceeds the nearest aligned gap |
| Snake.DrawnFreeIsEmpty | snake_game.c:291-330 | a cell the drawing leaves free holds no segment and no food |
| Snake.PaintHead | snake_game.c:300-313 | painting the head onto a blank buffer shows the one-segment snake |
| Snake.PaintSegment | snake_game.c:317-324 | painting one more segment (only when inside the field) onto a buffer showing the first segments shows the longer snake |
| Snake.PaintFood | snake_game.c:329 | painting `*` at the food cell over a buffer showing the snake gives the rendered background |
| Snake.VerdictPriority | snake_game.c:489-501 | a finished game stays finished, a wall or hunger verdict is given only when its condition holds and no earlier one does, and a newly finished game always has a cause |
| Snake.PerformanceOrder | snake_game.c:590-603 | performance is never negative, and is positive exactly when something was eaten at a positive distance |
| Snake.AllTakenStep | snake_game.c:184-200 | one more refused attempt extends the run of refused food placements |
| Snake.BlankAcceptsFirst | snake_game.c:184-200 | on an all-blank background the first placement attempt is accepted, wherever it lands |
| Snake.AttemptInField | snake_game.c:67-71 | every random point lies inside the field and on a buffer index |
| Snake.Game.Init | snake_game.c:386-425 | a new game: a one-segment snake at the first two draws, no direction, a full budget, zero totals, a blank background, the food at the next two draws, and its features |
| Snake.Game.Start | snake_game.c:410-422 | the drawing half of creation consumes four draws: the head, then the food, with the features computed |
| Snake.Game.SetDirection | snake_game.c:438-465 | the new direction is `Steer` of the old one: with the guard on, the exact reverse is refused |
| Snake.Game.Move | snake_game.c:91-132 | with a direction, the body becomes `Moved` of the old body and one step of the budget is spent; without one, nothing changes; cells past the snake are untouched |
| Snake.Game.Eat | snake_game.c:74-88 | the snake grows by one, the step totals accumulate the steps used and the initial food distance, the budget is refilled, and the new tail is parked at (-1, -1) |
| Snake.Game.RandomPoint | snake_game.c:67-71 | x from one draw and y from the next, both reduced modulo the field size; two draws consumed |
| Snake.Game.SeekFree | snake_game.c:184-200 | the retry loop returns the first attempt that lands on a free cell; all earlier attempts met a taken cell |
| Snake.Game.PlaceFood | snake_game.c:184-200 | the food goes to the first free attempt, and the initial food distance is its Manhattan distance from the head |
| Snake.Game.ComputeDist | snake_game.c:212-282 | the hit features are `HitDist` of the body and the food features are `FoodDist` of the head and food |
| Snake.Game.ScanBody | snake_game.c:227-272 | the body bounds are `Scan` of the later segments from the field sizes, so each is at most one short of an aligned segment's gap (`ScanAtMostGap`) |
| Snake.Game.IsHittingItself | snake_game.c:147-157 | true exactly when some segment other than the head lies on the head's cell |
| Snake.Game.CheckOver | snake_game.c:489-501 | the end flag and cause become `Verdict` of the moved body, the budget and the old flag and cause |
| Snake.Game.Over | snake_game.c:203-209 | the game is over; a given reason replaces the stored one, and without one the stored reason stays |
| Snake.Game.UpdateBackground | snake_game.c:291-330 | the background shows exactly the snake (body marks over head marks, crossed out when over) and the food, and blanks elsewhere |
| Snake.Game.Advance | snake_game.c:478-480 | the move followed by the features for the new head |
| Snake.Game.Feed | snake_game.c:482-487 | eating happens exactly when the head is on the food; the snake then grows as `Eat` states and the food goes to the first free placement attempt, every earlier attempt having met a taken cell, with two draws used per attempt; otherwise the body, the counters, the food, its distance and the draw position are unchanged |
| Snake.Game.Tick | snake_game.c:478-500 | the state change of a tick: the body moves and grows exactly when the new head is on the food (with the totals and budget of `Eat`, and the food at the first free placement attempt, with the draws used); otherwise the counters, the food, its distance, the draw position and the cells past the snake are unchanged; the features are those of the moved head and the old food, and the verdict is applied |
| Snake.Game.Update | snake_game.c:468-513 | one training tick: the body moves, it grows exactly when the new head is on the food (with the totals and budget of `Eat`, and the food at the first free placement attempt, with the draws used); otherwise the counters, the food, its distance, the draw position and the cells past the snake are unchanged; the features are those of the moved head and the old food, the verdict is applied, and the background is redrawn only on request |
| Snake.Create | snake_game.c:386-422 | no game for a negative size; otherwise a fresh game as `Init` leaves it: a one-segment snake at the first draw pair, the food at the next, no cause, draw position 4, a blank background and the features of that snake |
| NeuralNet.CountsNonNegative | neural_network.c:54-71 | for a well-sized configuration there are at least `n_output` neurons and no negative weight or bias count |
| NeuralNet.Accepted | neural_network.c:156-163 | every configuration `nn_create` accepts has buffers of a size: no negative count |
| NeuralNet.NeuronCount | neural_network.c:174 | without hidden layers only the outputs are neurons; a well-sized configuration has at least `n_output` |
| NeuralNet.WeightCount | neural_network.c:54-71 | without hidden layers the matrix is `n_input` by `n_output`; a well-sized configuration never has a negative weight count |
| NeuralNet.ComputeNWeight | neural_network.c:54-71 | the layer walk yields the closed-form weight count |
| NeuralNet.WeightOffsetClosedForm | neural_network.c:285-307 | hidden layer l's matrix starts at `n_input*nph + (l-1)*nph^2`, and the offset past the last layer is the weight count |
| NeuralNet.WeightRegionFits | neural_network.c:285-322 | every layer's weight matrix lies inside the weight buffer |
| NeuralNet.NeuronRegionFits | neural_network.c:285-322 | every layer's neurons lie inside the neuron buffers, with the output layer as the last slice |
| NeuralNet.StoredAfterLayer | neural_network.c:285-307 | once a layer has been written from its input, all layers up to it hold their forward values |
| NeuralNet.StoredFrame | neural_network.c:285-307 | writing a later layer leaves an earlier layer's stored outputs intact |
| NeuralNet.DerivativeBounds | neural_network.c:127-141 | on the output ranges of sigmoid ([0, 1]) and tanh ([-1, 1]), the derivative lies in [0, 1/4] and [0, 1] respectively |
| NeuralNet.Derivative | neural_network.c:127-141 | the sigmoid and tanh derivatives vanish exactly where the curve saturates (outputs 0 and 1, resp. -1 and 1); any other activation has derivative 1 |
| NeuralNet.Network.Init | neural_network.c:144-186 | the buffers are fresh and sized by the configuration's counts |
| NeuralNet.Network.Mutate | neural_network.c:434-553 | the bias buffer (when used) and then the weight buffer become `MutateNet` of the old ones, consuming draws in order |
| NeuralNet.Network.Randomize | neural_network.c:475-491 | every bias and weight is replaced by the next draw spread over [-1, 1] |
| NeuralNet.Network.RandomizeWithScale | neural_network.c:494-510 | every bias and weight is replaced by the next draw spread over [-scale, scale] |
| NeuralNet.Network.RandomizeByRate | neural_network.c:513-531 | each element is replaced when its pick draw falls below the rate, and kept otherwise |
| NeuralNet.Network.RandomizeWithScaleByRate | neural_network.c:534-553 | as by-rate randomization, with the replacement spread over [-scale, scale] |
| NeuralNet.Network.PlusRandomize | neural_network.c:434-450 | every element is moved by a draw within [-range, range] |
| NeuralNet.Network.PlusRandomizeByRate | neural_network.c:453-472 | each element is moved when its pick draw falls below the rate |
| NeuralNet.Network.Run | neural_network.c:266-325 | the result is `Forward` at the output layer, every layer's outputs stay in the output buffer, and the result is its last `n_output` entries |
| NeuralNet.Network.RunLayer | neural_network.c:290-304 | one layer step stores that layer's forward values and keeps earlier layers |
| NeuralNet.Network.RunHidden | neural_network.c:285-307 | after the hidden-layer loop every hidden layer holds its forward values, and the returned input and offsets are the output layer's |
| NeuralNet.Network.Train | neural_network.c:328-431 | returns the run's result on the old weights; afterwards every layer holds its back-propagated deltas, its biases are moved by them, and its matrix is corrected by them and by the input it read (`Trained`) |
| NeuralNet.Network.BackOutputDeltas | neural_network.c:350-368 | the output layer's deltas are expected minus actual, times the derivative |
| NeuralNet.Network.BackHiddenDeltas | neural_network.c:391-409 | a hidden layer's deltas are the next layer's deltas dotted with the columns of the next, not yet corrected, matrix, times the derivative |
| NeuralNet.Network.BackBiases | neural_network.c:366-408 | with bias, a layer's biases move by its deltas times the rate |
| NeuralNet.Network.BackCorrect | neural_network.c:411-429 | a layer's matrix is corrected by its deltas and its input, and the matrices above stay corrected |
| NeuralNet.Network.BackHidden | neural_network.c:374-415 | one backward round extends the stored deltas, moved biases and corrected matrices down by one layer |
| NeuralNet.TrainZeroRate | neural_network.c:328-431 | training at rate 0 changes no weight and no bias |
| NeuralNet.TrainAtTarget | neural_network.c:328-431 | training on a run that already produced the expected outputs changes no weight and no bias, whatever the rate |
| NeuralNet.DeltasZeroAtTarget | neural_network.c:359-409 | when the outputs equal the expected ones, every layer's deltas are zero |
| NeuralNet.MutateTouchOrLeave | neural_network.c:434-553 | every element is either left or replaced/moved within the mutation's bounds |
| NeuralNet.MutateDraws | neural_network.c:434-553 | each element consumes one draw, or two when it is picked under a rate |
| NeuralNet.ResetOverwritesAll | neural_network.c:475-510 | a reset without a rate overwrites element i with draw i, scaled |
| NeuralNet.ResetNet | neural_network.c:475-510 | a whole-network reset gives the biases the first draws and the weights the following ones |
| NeuralNet.ZeroRateLeavesAll | neural_network.c:30-35 | with a rate of 0 or less, nothing is picked and the buffer is unchanged |
| NeuralNet.MutateElement | neural_network.c:30-41 | one element: the pick draw first when there is a rate, then the value draw |
| NeuralNet.MutateArray | neural_network.c:434-553 | one buffer becomes `MutateSeq` of the old contents, and the cursor moves past the draws used |
| NeuralNet.Create | neural_network.c:144-186 | null exactly when the sizes are not accepted (no draw consumed); otherwise a fresh network with that configuration whose biases, then weights, are the next draws spread over [-1, 1] |
| NeuralNet.Produce | neural_network.c:189-229 | null exactly when the parents' shapes differ, and then no draw is consumed; otherwise a child of the first parent's shape whose weights (and biases) are taken element by element from either parent by coin draws |
| NeuralNet.CrossArray | neural_network.c:215-226 | one crossover loop: the buffer becomes `Cross` of the parents, one coin per element |
| NeuralNet.Duplicate | neural_network.c:243-263 | null for null; otherwise a fresh network of the same configuration holding the same weights and biases |
| NeuralNet.ForwardLayer | neural_network.c:74-110 | one layer's outputs become `LayerValues` of its input, biases and matrix; nothing else in the buffer changes |
| NeuralNet.NeuronSum | neural_network.c:88-96 | a neuron's pre-activation is its base plus its weight row dotted with the input |
| NeuralNet.LayerValues | neural_network.c:74-110 | one value per neuron of the layer; `ForwardLayer` and `NeuronSum` show the loop computes exactly these |
| NeuralNet.Forward | neural_network.c:285-307 | the outputs of layer l have layer l's width; `NextInput` and `StoredAfterLayer` tie them to what `nn_run` stores |
| NeuralNet.OutputDeltaLayer | neural_network.c:359-365 | the output deltas are written at their offset, and nothing else changes |
| NeuralNet.HiddenDeltaLayer | neural_network.c:391-406 | a hidden layer's deltas are written at their offset, and nothing else changes |
| NeuralNet.MoveBiases | neural_network.c:366-408 | a layer's biases move by its deltas times the rate, and nothing else changes |
| NeuralNet.ColumnSum | neural_network.c:398-402 | the inner sum is the next deltas dotted with column j |
| NeuralNet.Correct | neural_network.c:113-124 | entry (i, j) of the matrix moves by `d[i] * inp[j] * rate`, and nothing else in the buffer changes |
| NeuralNet.CorrectRow | neural_network.c:117-122 | one row of that correction |
| NeuralNet.DecodeEncode | neural_network.c:588-669 | loading what was saved gives back the configuration, weights and biases (no biases without bias), and stops right after them, wherever in the file the record is found |
| NeuralNet.EncodeDecode | neural_network.c:619-669 | whatever loads successfully is exactly the encoding of what it loaded |
| NeuralNet.DecodeTruncated | neural_network.c:619-669 | a saved network cut short anywhere is a failed load |
| NeuralNet.SaveF | neural_network.c:588-616 | appends the header, the weights and, only with bias, the biases; returns 0 |
| NeuralNet.WriteFloats | neural_network.c:606-613 | appends a buffer's values in order |
| NeuralNet.WriteHeader | neural_network.c:590-604 | appends the seven configuration fields in order |
| NeuralNet.ReadInt | neural_network.c:626-627 | one `int` read: the value and one position on when the next record is an `int`; failure at end of file or on a record of another kind |
| NeuralNet.ReadHeader | neural_network.c:625-639 | reads the seven configuration fields, or fails on the first read that finds no `int` record |
| NeuralNet.ReadFloats | neural_network.c:650-657 | one `fread` of a buffer: its values when the next records are that many `float` records; failure when the file ends first or a record of another kind comes first |
| NeuralNet.LoadF | neural_network.c:619-669 | null exactly when `Decode` fails at the current position; otherwise a fresh network holding what was decoded, with the position after the record |
| Elite.InsertionPoint | neural_network_elite.c:58-66 | the scan stops at the first entry strictly worse than the new goodness; everything before it is at least as good |
| Elite.Inserted | neural_network_elite.c:58-78 | the new entry linked in just before the first strictly worse one; `InsertedSorted` proves the list stays descending and gains exactly that entry |
| Elite.InsertedSorted | neural_network_elite.c:58-78 | inserting keeps the list descending and adds exactly the new entry |
| Elite.AddedAfterTies | neural_network_elite.c:58-78 | a new entry goes after every entry of equal goodness and before every worse one |
| Elite.AddedSorted | neural_network_elite.c:38-91 | adding keeps the list descending |
| Elite.Added | neural_network_elite.c:38-91 | the first entry is kept unconditionally, a later one is inserted and the tail dropped when over capacity; `AddedSorted`, `AddedBounded` and `AddedEvictsWorst` prove what this keeps |
| Elite.AddedHead | neural_network_elite.c:38-91 | the head changes exactly when the new goodness beats the old head's |
| Elite.AddedBounded | neural_network_elite.c:38-91 | adding never exceeds the capacity and grows the list by one until it is reached |
| Elite.AddedEvictsWorst | neural_network_elite.c:80-90 | on overflow exactly one entry is dropped, the tail after insertion, which is no better than any entry kept; the kept entries keep their order |
| Elite.AddedKeepsAll | neural_network_elite.c:38-91 | without overflow, nothing is dropped |
| Elite.AddedAtTail | neural_network_elite.c:58-78 | an entry no better than the tail goes on the end |
| Elite.AddAllSorted | neural_network_elite.c:244-254 | a run of additions keeps the list descending |
| Elite.AddAllRebuilds | neural_network_elite.c:244-254 | re-adding a descending list within capacity, head first, rebuilds it |
| Elite.PairsRead | neural_network_elite.c:244-254 | the saved (network, goodness) pairs read back as the entries |
| Elite.EliteDecodeEncode | neural_network_elite.c:202-257 | loading what was saved gives the capacity and the entries, whatever surrounds them |
| Elite.SaveThenLoad | neural_network_elite.c:202-257 | saving and loading a valid list into an empty one gives back the same list |
| Elite.PairsAtShort | neural_network_elite.c:244-251 | a pair that cannot be read makes every longer read fail |
| Elite.EliteList.Init | neural_network_elite.c:31-35 | an empty list with the given capacity |
| Elite.EliteList.GetCount | neural_network_elite.c:152-169 | the count is the number of entries |
| Elite.EliteList.Add | neural_network_elite.c:38-91 | the entries become `Added` of the old entries and the new one |
| Elite.EliteList.Clear | neural_network_elite.c:94-111 | the list is empty afterwards |
| Elite.EliteList.GetBest | neural_network_elite.c:143-149 | none for an empty list, otherwise the head's network |
| Elite.EliteList.PickByRandom | neural_network_elite.c:114-140 | none for an empty list, with no draw; the only network, after exactly one draw, when there is one; otherwise the network at the last draw consumed (modulo the count), which is not the excluded one, every earlier draw since the call having fallen on the excluded one, so the draws stop at the first that misses it |
| Elite.EliteList.SaveF | neural_network_elite.c:202-227 | appends the capacity, the count and each network with its goodness, head to tail; returns 0 |
| Elite.EliteList.LoadF | neural_network_elite.c:230-257 | 0 exactly when the records decode, and then `max_len` is the one read and the entries are the old ones with the decoded ones added in order; -1 otherwise, and then `max_len` is overwritten once it was read and the entries keep every whole pair read before the short one |
| Elite.EliteList.LoadEntries | neural_network_elite.c:244-254 | reads `cnt` pairs and adds each, failing exactly when the pairs are short; in both outcomes the entries are the old ones with every whole pair before the first short one added in order |
| Elite.ReadablePairsAgree | neural_network_elite.c:244-253 | all `cnt` pairs are readable exactly when the pair read succeeds, and then the readable prefix is what it returns |
| Elite.ReadablePairsStop | neural_network_elite.c:244-253 | the first pair that cannot be read ends the readable prefix: no later pair is taken |
| Elite.ReadPair | neural_network_elite.c:246-251 | one entry: a network record, then a goodness record, or failure |
| Driver.FirstMaxUnique | n_snake.c:182-198 | at most one index is the first maximum |
| Driver.FindMax | n_snake.c:182-198 | the result is the first index holding the maximum of the first `len` values, and 0 when `len < 1` |
| Driver.TiesMoveUp | n_snake.c:265-268 | when all four outputs are equal, the snake is sent UP |
| Driver.SteerKeepsMoving | n_snake.c:268 | a real direction requested with the guard on always leaves the snake a direction |
| Driver.Input | n_snake.c:256-263 | eight inputs: input k is hit distance k and input 4+k is food offset k |
| Driver.NewBest | n_snake.c:349-357 | the best after counting a child is the larger of the old best and its performance |
| Driver.Admitted | n_snake.c:359-363 | a child joins the elite list when its performance beats 0.8 of the best after counting it (`AdmissionRule` states the consequences) |
| Driver.Decide | n_snake.c:256-268 | the direction is the first maximum of the network's first four outputs on the game's features, and it is applied with the reversal guard, so the snake always has a direction |
| Driver.AdmissionRule | n_snake.c:348-368 | a new positive best is always admitted; a child at or below 0.8 of a non-negative best, or without positive performance, never is |
| Driver.Status.Init | n_snake.c:414-417 | generation 0, no best, an empty elite list |
| Driver.Status.Evolve | n_snake.c:348-368 | a child beating the best counts a generation and becomes the best; it joins the elite list exactly when it clears 0.8 of the updated best |

## Left out

- Rendering to the terminal (`_display_update_foreground`, `snake_game_show`, `nn_elite_show`) and the cursor escapes: output only.
- The wall-clock gate `_game_should_update` and `step_per_sec`: `Update` models the `no_wait` path the trainer uses.
- Freeing (`snake_game_free`, `nn_free`, `_nn_elite_free`) and the file-name wrappers `nn_save`, `nn_load`, `nn_elites_save` and `nn_elites_load`: memory and `fopen` only.
- `snake_game_is_over` and `snake_game_get_score` read `gameOver` and `Score()` directly. `snake_game_get_game_over_reason` is the `reason` field; its "no reason yet" is `NoCause`.
- Game over reasons are the `Cause` values, not the C strings. The C leaves `game_over_reason` uninitialised at creation; the model starts from `NoCause`.
- The Mersenne Twister and glibc `rand()` internals: every random source is a given stream of draws, and a seed is replaced by its stream.
- C `int` arithmetic is modelled with unbounded integers, so 32-bit wrap-around is not modelled. This covers the step totals, `snake_len`, and the products in the weight and neuron counts. No realistic game or network comes near the 32-bit range.
- `float` is modelled as `real`, so rounding, overflow, infinities and NaN are not modelled. Sigmoid and `tanh` are parameters.
- `Snake.Performance` requires `total_step_used != 0` whenever the score is positive, because the C division would produce infinity or NaN.
- Snake.Game.Eat: requires room for one more segment. The C writes past the `x*y` body buffer otherwise.
- Snake.Game.Feed: when the head is on the food, requires room for one more segment and a free cell among the coming placement attempts, for the same reason as `Update`.
- Snake.Game.Tick: the same requirement as `Update`, which it serves.
- Snake.Game.Update: on a tick where the snake eats, requires room for one more segment, as `Eat` does, and a free cell among the coming placement attempts; the C writes past the body buffer or retries forever otherwise.
- Snake.Create: requires non-zero sizes unless one is negative. Past its negative-size check the C reduces draws modulo the sizes, and a zero size divides by zero.
- Snake.Game.PlaceFood: the ghost `k` names an attempt known to land on a free cell. The C loop runs forever when there is none. Also, the C writes `pt` on every attempt and the model writes it once at the end, with the same final value.
- Snake.Game.SeekFree: same ghost bound as `PlaceFood`.
- Elite.EliteList.PickByRandom: the ghost `hit` names a future draw whose index is not the excluded network. The C spins forever otherwise.
- Elite.EliteList.SaveF: requires a non-empty list. The C walks the cycle from the head, which it dereferences.
- Networks inside an elite file are one opaque record each; their own encoding is `NeuralNet.Encode`.
- Files are sequences of typed records (`int` or `float` for a network; count, network or goodness for an elite list), and a read fails when the next record is of another kind. The C `fread` copies bytes and fails only on a short read, so on a file the program did not write itself (a header whose first record is a `float`, say) the C may load something where the model's `NeuralNet.LoadF` gives null and `Elite.EliteList.LoadF` gives -1. Files written by `SaveF` read back the same in both.
- NeuralNet.SaveF and Elite.EliteList.SaveF: writes never fail, so the result is always 0.
- NeuralNet.LoadF: refuses every header with a negative `n_input`, `n_output` or `n_hidden`, or with hidden layers and a negative `n_neuro_per_hidden`, because the layer geometry has no meaning for them. The C checks none of this when loading. It loads some such headers without trouble, for example (2, 1, -1, 0, 0, 0, 0) followed by two floats: one neuron and two weights. `nn_create` never writes such a header, so files written by `SaveF` are unaffected.
- NeuralNet.Network.Train: the C moves each bias inside the delta loop, and the model moves a layer's biases right after its deltas. This gives the same values, because bias j reads only delta j.
- NeuralNet.Produce: requires, when the shapes match, that the child can be created and that the second parent has biases whenever the first does. The C dereferences the child unchecked and reads the second parent's bias buffer without checking its `use_bias`.
- NeuralNet.Duplicate: requires an accepted configuration, because the C copies into the created network without checking it.
- The game loop of `_ai_run_n_games` is not modelled: the averaging over games, the demo display and the stop flag. Only its per-tick decision is (`Driver.Decide`).
- Parent selection and mutation in `ai_progress` are not modelled as a whole. They are the modelled `GetBest`, `PickByRandom`, `Produce` and `RandomizeByRate`, called in sequence.
- Threads, the status lock, signals, option parsing, `ai_status_init`/`ai_status_exit` and `ai_replay`: process plumbing outside the decision logic.
- With rendering off, the background stays blank, so new food may land on the snake. The model states this as `BlankAcceptsFirst`, which follows the code.
- An untrained network of equal outputs picks UP, by the first-maximum rule (`TiesMoveUp`). It therefore moves up until it hits the wall, rather than starving.
