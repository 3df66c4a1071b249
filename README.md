# Low-level-design exercises, modelled in Dafny

This project models the sequential core of a collection of Java low-level-design exercises and proves properties of it. Each exercise gets one or more Dafny modules, and each Java class that updates its own fields becomes a Dafny `class` whose methods are proved against value-level specification functions.

- **Elevator scheduling.** There are three versions of one LOOK/SCAN car.
  - `com.elevator_v2` (`ElevatorV2Model`, `ElevatorV2Dispatch`, `ElevatorV2Controller`): a car holds a set of (floor, request type) requests and moves one floor per `step()`. The direction-aware dispatcher picks the first car of minimal score. The controller validates hall calls and car calls.
  - `com.elevator` (`ElevatorLook`, `ElevatorLookStates`): per-state classes (idle, moving up, moving down) drive a car whose requests carry a source, a destination and a picked-up flag.
  - `com.elevator.simple` (`ElevatorSimple`): the same algorithm with public fields.
  - `LookRules` states the stop, pickup, drop-off, reverse and go-idle rules that the two request-list versions share, as value functions.
- **Dictionary** (`DictionaryTrie`, `DictionaryService`): a trie of words with meanings. It supports add, lookup, prefix search, `.`-wildcard search, deletion with node pruning and a word counter.
- **Search autocomplete** (`AutocompleteTrie`, `SentenceRanking`, `SearchAutocompleteService`): a frequency trie with a cursor advanced one character at a time. It returns the top three sentences by frequency, ties broken by ascending string order, and `#` records the typed sentence.
- **Snake** (`SnakeRules`, `SnakeSimple`, `SnakeLayered`): a body deque plus a membership set, with wall and self collision, the tail-chasing exception, growth on food and food placement.
- **Tic-tac-toe** (`TicTacToeRules`, `TicTacToeSimple`, `TicTacToeStrategy`): an N×N board that detects a win by scanning the lines through the last move, a game that handles turns, wins and draws, and the O(1) counter-based winning strategy, proved to agree with the scan.
- **Chess** (`ChessRules`, `ChessPosition`, `ChessBoard`, `ChessMoves`, `ChessGame`): the piece movement rules, the board set-up, king search and attack test, command-style move and undo, and the game's move validation with rollback when a move leaves the mover in check.
- **Snakes and ladders** (`SnakeLadderRules`, `SnakeLadderGame`, `SnakeLadderFactory`): jumps, overshoot, win and turn rules, the configuration builder and the factory's validation and presets.
- **ATM** (`AtmCash`, `AtmRules`, `Atm`): the card, PIN and withdrawal state machine, the bank's account and card tables, and the greedy 2000/500/100 note-dispensing chain.
- **Parking lot** (`ParkingSimple`, `ParkingFloors`, `NearestFirst`):
  - the single-level lot's first-free spot per type, ticket issue and ticket validation;
  - the multi-level model's per-floor FIFO queues of free spots;
  - the nearest-first floor strategy.
- **Coffee machine inventory** (`CoffeeInventory`): ingredient counts that are checked before a beverage is accepted, consumed when it is made, and refilled.
- `Wrappers` holds the `Option` type shared by the modules.

Random draws (dice, food cells) are parameters. Console output is not modelled. Java `int` is unbounded here.

Where a Java method can throw, the model either returns an explicit outcome or states a precondition; the preconditions are listed under "Left out". Two cases:
- Chess's `isInCheck` dereferences a missing king. The model returns `Option<bool>` and the game's reply has a `KingMissing` case.
- Snakes and ladders' `makeMove` on a game without players returns `NoPlayer`.

A few places where the code does something other than what its comments or demos say are modelled as the code is written:
- **Chess checkmate.** `isCheckmate` is a placeholder that returns `isInCheck` (`ChessGame.Game.IsCheckmate`). A check that is not mate is therefore reported as mate, contrary to what the project's chess test expects.
- **ATM negative withdrawal.** A negative withdrawal amount passes the balance check, and `account.debit(amount)` is called with it (`AtmRules.NegativeWithdrawalCredits`). `Account` is not part of this model; the model takes `debit` to subtract the amount with no check of its own, so the negative amount credits the account.
- **Coffee duplicate items.** `checkIngredients` tests each listed item once, not once per occurrence. A list naming an item twice can drive its count negative (`CoffeeInventory.DoubleMilkOverdraws`).
- **Elevator v2 lone down-call.** A lone PICKUP_DOWN above an idle v2 car sends the car below floor 0, where it oscillates without serving the call (`ElevatorV2Model.LonePickupDownOscillates`). The model states no floor bound and no eventual-service property for `step()`.

## Model

| member | source | states |
|---|---|---|
| ElevatorV2Model.Reverse | src/com/elevator_v2/model/Elevator.java:130-132 | the reversed direction is never IDLE and differs from any non-idle direction it reverses |
| ElevatorV2Model.Elevator.constructor | src/com/elevator_v2/model/Elevator.java:20-25 | a new car stands IDLE on floor 0 with no requests |
| ElevatorV2Model.Elevator.AddRequest | src/com/elevator_v2/model/Elevator.java:30-42 | accepted exactly for floors 0 to 10; a request for the current floor is dropped; otherwise it joins the set; floor and direction are kept |
| ElevatorV2Model.Elevator.Step | src/com/elevator_v2/model/Elevator.java:48-83 | one tick follows the SCAN rule: IDLE with no requests; an idle car turns towards the nearest request; a car stops to serve its floor or else moves, reversing when nothing lies ahead |
| ElevatorV2Model.Elevator.FindNearestRequest | src/com/elevator_v2/model/Elevator.java:85-96 | the loop returns a request at minimal distance from the current floor |
| ElevatorV2Model.Elevator.ShouldStopAtCurrentFloor | src/com/elevator_v2/model/Elevator.java:98-103 | true exactly when the current floor has a destination or a pickup in the car's direction |
| ElevatorV2Model.Elevator.StopAtCurrentFloor | src/com/elevator_v2/model/Elevator.java:105-112 | exactly the destination and the same-direction pickup at the current floor are removed |
| ElevatorV2Model.Elevator.HasRequestsInDirection | src/com/elevator_v2/model/Elevator.java:114-128 | true exactly when a destination or a same-direction pickup lies strictly beyond the current floor in that direction |
| ElevatorV2Model.Elevator.Move | src/com/elevator_v2/model/Elevator.java:134-142 | UP adds one floor, DOWN takes one away, IDLE stays; nothing else changes |
| ElevatorV2Model.Elevator.HasRequestsAtOrBeyond | src/com/elevator_v2/model/Elevator.java:150-156 | true exactly when some request lies at or beyond the floor in that direction |
| ElevatorV2Model.AddRequestIdempotent | src/com/elevator_v2/model/Elevator.java:38-39 | adding the same floor and type twice gives the same request set as adding it once |
| ElevatorV2Model.SweepDirection | src/com/elevator_v2/model/Elevator.java:56-59 | with requests, a tick sweeps in a non-idle direction, the car's own when it was moving |
| ElevatorV2Model.StepMovesAtMostOneFloor | src/com/elevator_v2/model/Elevator.java:62-82 | a tick moves at most one floor, and never on a tick that serves a stop |
| ElevatorV2Model.StepIdleIffEmpty | src/com/elevator_v2/model/Elevator.java:50-52 | after a tick a car is IDLE exactly when it has no requests |
| ElevatorV2Model.StepRemovesOnlyServed | src/com/elevator_v2/model/Elevator.java:62-74 | a tick only removes requests at the car's floor, and for a moving car only the destination and the pickup in its direction |
| ElevatorV2Model.OppositePickupDeferred | src/com/elevator_v2/model/Elevator.java:98-112 | a pickup for the opposite direction at the car's floor is not served on this sweep |
| ElevatorV2Model.SweepContinues | src/com/elevator_v2/model/Elevator.java:70-82 | while a request lies ahead, a moving car neither reverses nor goes idle |
| ElevatorV2Model.LonePickupDownOscillates | src/com/elevator_v2/model/Elevator.java:56-82 | a lone PICKUP_DOWN at floor 5 over an idle car at 0 sends the car to floor -1 and then back and forth between -1 and 0, never serving it, because hasRequestsInDirection ignores opposite pickups |
| ElevatorV2Dispatch.ScoreCases | src/com/elevator_v2/strategy/DirectionAwareStrategy.java:33-54 | the score is the distance for an idle or on-the-way car, and the distance plus 1000 for every other car |
| ElevatorV2Dispatch.FirstBestUnique | src/com/elevator_v2/strategy/DirectionAwareStrategy.java:22-28 | at most one car is the earliest of minimal score |
| ElevatorV2Dispatch.SelectElevator | src/com/elevator_v2/strategy/DirectionAwareStrategy.java:18-31 | the scan returns the earliest car of minimal score, and None exactly when no car scores below Integer.MAX_VALUE |
| ElevatorV2Controller.ElevatorController.constructor | src/com/elevator_v2/controller/ElevatorController.java:22-28 | numElevators new cars (none for a negative count), numbered from 1, each IDLE on floor 0 with no requests |
| ElevatorV2Controller.ElevatorController.RequestElevator | src/com/elevator_v2/controller/ElevatorController.java:33-49 | an invalid floor or an IDLE direction changes no car; otherwise exactly the car the dispatcher selects gets the pickup request |
| ElevatorV2Controller.ElevatorController.FindById | src/com/elevator_v2/controller/ElevatorController.java:55-58 | the first car with the id, or None exactly when no car has it |
| ElevatorV2Controller.ElevatorController.SelectFloor | src/com/elevator_v2/controller/ElevatorController.java:54-66 | an unknown id changes nothing; otherwise exactly the named car gets the destination request |
| ElevatorV2Controller.ElevatorController.Step | src/com/elevator_v2/controller/ElevatorController.java:71-75 | every car takes exactly one SCAN tick |
| LookRules.DirectionOf | src/com/elevator/model/Request.java:12 | a request's direction is UP exactly when the destination is above the source, and never IDLE |
| LookRules.BoardAll | src/com/elevator/model/Elevator.java:58-66 | the pickup pass marks on board exactly the waiting passengers at the car's floor going the car's way (any way when IDLE), and leaves every other request as it is |
| LookRules.DropOffKeeps | src/com/elevator/model/Elevator.java:69-76 | the drop-off pass keeps exactly the requests that do not alight here, and never adds one |
| LookRules.OpenDoorsLeavesNoArrival | src/com/elevator/model/Elevator.java:54-79 | after openDoors nobody on board is bound for the current floor |
| LookRules.DoorsLeaveNoArrival | src/com/elevator/state/MovingUpState.java:16-18 | whether or not the doors open at a floor, nobody left on the list is bound for that floor |
| LookRules.OpenDoorsLeavesNoBoarder | src/com/elevator/model/Elevator.java:58-66 | after openDoors nobody at the current floor is still waiting for a car going this way |
| LookRules.OpenDoorsKeepsBystander | src/com/elevator/model/Elevator.java:54-79 | a request that neither boards nor alights passes through openDoors unchanged |
| LookRules.OpenDoorsWithoutStopIsIdentity | src/com/elevator/model/Elevator.java:87-101 | when shouldStopAt is false, openDoors changes nothing |
| LookRules.OpenDoorsIdempotent | src/com/elevator/model/Elevator.java:54-79 | opening the doors twice at one floor does what opening them once does |
| LookRules.TickPreservesAgreement | src/com/elevator/state/IdleState.java:9-33 | both car variants keep the state object and the direction in agreement (IdleState with IDLE or the last direction, MovingUp with UP, MovingDown with DOWN) |
| LookRules.TickLeavesNoArrival | src/com/elevator/state/MovingUpState.java:8-35 | after any tick of either variant nobody on board is bound for the floor the car is at |
| LookRules.TickMovesOneFloor | src/com/elevator/state/MovingDownState.java:8-35 | an idle tick never moves the car, a moving-up tick climbs exactly one floor and a moving-down tick descends exactly one |
| LookRules.IdleStep | src/com/elevator/state/IdleState.java:9-33 | IdleState.move as a rule: with no requests nothing changes; otherwise the doors open if the floor needs a stop, then the car heads UP if a target lies above, else DOWN if one lies below, else its direction becomes IDLE; TickPreservesAgreement and TickLeavesNoArrival state what it keeps |
| LookRules.UpStep | src/com/elevator/state/MovingUpState.java:8-35 | MovingUpState.move as a rule: one floor up, the doors open there if needed, then keep going while a target lies above, reverse when only targets below remain, go idle with no requests left; its properties are stated by TickMovesOneFloor and UpStepDefersOppositePickup |
| LookRules.DownStep | src/com/elevator/state/MovingDownState.java:8-35 | MovingDownState.move as a rule: the mirror image of UpStep, one floor down; its properties are stated by TickMovesOneFloor and TickLeavesNoArrival |
| LookRules.Tick | src/com/elevator/model/Elevator.java:50-52 | Elevator.move as a rule: the step of the car's current state object; TickPreservesAgreement, TickLeavesNoArrival and TickMovesOneFloor state what every tick keeps |
| LookRules.IdleVariantsDiffer | src/com/elevator/simple/IdleState.java:8-26 | the two idle rules agree except when nothing lies above or below after the doors: the state-pattern car then sets IDLE, the simplified car keeps its direction |
| LookRules.UpStepDefersOppositePickup | src/com/elevator/state/MovingUpState.java:13-18 | a passenger waiting to go down at the floor an upward car reaches is not picked up on that tick |
| LookRules.OppositePickupOvershoots | src/com/elevator/state/MovingUpState.java:8-35 | an upward car at 2 whose only request waits at 3 to go down to 1 passes 3, climbs to 4, reverses and picks the passenger up at 3 on the way down |
| ElevatorLook.Request.constructor | src/com/elevator/model/Request.java:9-14 | a new request is waiting, with the direction its floors give |
| ElevatorLook.Request.SetPickedUp | src/com/elevator/model/Request.java:21 | only the on-board flag changes |
| ElevatorLook.RemoveAllIsDropOff | src/com/elevator/model/Elevator.java:69-76 | removeAll of the collected arrivals leaves what the drop-off pass keeps |
| ElevatorLook.Elevator.constructor | src/com/elevator/model/Elevator.java:15-21 | a new car is on floor 0, IDLE, in IdleState, with no requests |
| ElevatorLook.Elevator.SetCurrentFloor | src/com/elevator/model/Elevator.java:136 | the floor becomes the given one; direction, state and the requests are unchanged |
| ElevatorLook.Elevator.SetCurrentDirection | src/com/elevator/model/Elevator.java:138 | the direction becomes the given one; floor, state and the requests are unchanged |
| ElevatorLook.Elevator.SetState | src/com/elevator/model/Elevator.java:139 | the state becomes the given one; floor, direction and the requests are unchanged |
| ElevatorLook.Elevator.AddRequest | src/com/elevator/model/Elevator.java:44-48 | the request is appended, duplicates kept, and nothing else changes |
| ElevatorLook.Elevator.HasRequests | src/com/elevator/model/Elevator.java:141 | true exactly when some request is pending |
| ElevatorLook.Elevator.OpenDoors | src/com/elevator/model/Elevator.java:54-79 | the pending requests become those of the openDoors rule, each boarding passenger's own flag is set, and floor, direction and state are kept |
| ElevatorLook.Elevator.ShouldStopAt | src/com/elevator/model/Elevator.java:87-101 | true exactly when someone on board alights at the floor or someone waits there for this direction (any, when IDLE) |
| ElevatorLook.Elevator.HasDestinationsAbove | src/com/elevator/model/Elevator.java:106-116 | true exactly when a passenger's next floor (destination on board, source while waiting) is above |
| ElevatorLook.Elevator.HasDestinationsBelow | src/com/elevator/model/Elevator.java:121-131 | true exactly when a passenger's next floor is below |
| ElevatorLookStates.IdleMove | src/com/elevator/state/IdleState.java:9-33 | the car after IdleState.move is the idle step of the LOOK rule |
| ElevatorLookStates.MovingUpMove | src/com/elevator/state/MovingUpState.java:8-35 | the car after MovingUpState.move is the upward step of the LOOK rule |
| ElevatorLookStates.MovingDownMove | src/com/elevator/state/MovingDownState.java:8-35 | the car after MovingDownState.move is the downward step of the LOOK rule |
| ElevatorLookStates.Move | src/com/elevator/model/Elevator.java:50-52 | move delegates one tick to the current state |
| ElevatorSimple.Request.constructor | src/com/elevator/simple/Request.java:13-17 | a new request is waiting, with the direction its floors give |
| ElevatorSimple.Elevator.constructor | src/com/elevator/simple/Elevator.java:11-19 | a new car is on floor 0, IDLE, in IdleState, with no requests |
| ElevatorSimple.Elevator.AddRequest | src/com/elevator/simple/Elevator.java:38-42 | the request is appended and nothing else changes |
| ElevatorSimple.Elevator.OpenDoors | src/com/elevator/simple/Elevator.java:45-66 | the requests become those of the openDoors rule; floor, direction and state are kept |
| ElevatorSimple.Elevator.PickUp | src/com/elevator/simple/Elevator.java:49-56 | each request's flag becomes set exactly when it was set or the passenger boards here |
| ElevatorSimple.Elevator.DropOffArrivals | src/com/elevator/simple/Elevator.java:59-65 | removeIf keeps exactly the requests that do not alight here, in order |
| ElevatorSimple.Elevator.ShouldStop | src/com/elevator/simple/Elevator.java:69-81 | true exactly when someone alights at the floor or waits there for this direction |
| ElevatorSimple.Elevator.HasAbove | src/com/elevator/simple/Elevator.java:84-90 | true exactly when some passenger's target floor is above |
| ElevatorSimple.Elevator.HasBelow | src/com/elevator/simple/Elevator.java:93-99 | true exactly when some passenger's target floor is below |
| ElevatorSimple.IdleMove | src/com/elevator/simple/IdleState.java:8-26 | the car after the simplified IdleState.move is the simplified idle step |
| ElevatorSimple.MovingUpMove | src/com/elevator/simple/MovingUpState.java:10-34 | the car after MovingUpState.move is the upward step of the LOOK rule |
| ElevatorSimple.MovingDownMove | src/com/elevator/simple/MovingDownState.java:8-32 | the car after MovingDownState.move is the downward step of the LOOK rule |
| ElevatorSimple.Move | src/com/elevator/simple/Elevator.java:32 | state.move(e) is one tick of the simplified car |
| DictionaryTrie.GetChild | src/com/dictionary/model/TrieNode.java:29-39 | a child comes back exactly when hasChild holds, and it is the node stored under the character |
| DictionaryTrie.AddChild | src/com/dictionary/model/TrieNode.java:33-35 | the character now leads to the given node, every other child and the node's own meaning and flag are kept |
| DictionaryTrie.SetMeaning | src/com/dictionary/model/TrieNode.java:45-48 | the meaning is stored and the node is marked as the end of a word, even for a null meaning |
| DictionaryTrie.SetEndOfWord | src/com/dictionary/model/TrieNode.java:54-56 | only the end-of-word flag changes |
| DictionaryTrie.NewNode | src/com/dictionary/model/TrieNode.java:19-23 | a new node has no children, no meaning and is not the end of a word |
| DictionaryTrie.NewNodeEmpty | src/com/dictionary/model/TrieNode.java:19-23 | a new trie stores no word |
| DictionaryTrie.WordsAreWords | src/com/dictionary/service/Dictionary.java:183-194 | the set of stored words holds exactly the paths findNode walks to an end-of-word node |
| DictionaryTrie.LowerCase | src/com/dictionary/service/Dictionary.java:45 | toLowerCase keeps the length and lowers each letter |
| DictionaryTrie.LowerCaseIdempotent | src/com/dictionary/service/Dictionary.java:45 | lowering twice is lowering once |
| DictionaryTrie.InsertFind | src/com/dictionary/service/Dictionary.java:46-60 | after the insertion loop a string is stored exactly when it was stored before or is the word, and only the word's meaning changes |
| DictionaryTrie.Insert | src/com/dictionary/service/Dictionary.java:46-60 | addWord's walk as a rule: missing children are created along the word and the meaning is set at its last node; InsertFind, InsertWords and InsertLean state its meaning |
| DictionaryTrie.InsertMeanings | src/com/dictionary/service/Dictionary.java:46-60 | the same statement about meanings for all strings at once |
| DictionaryTrie.InsertWords | src/com/dictionary/service/Dictionary.java:46-60 | the stored words after the insertion are the old ones plus the word |
| DictionaryTrie.InsertSummary | src/com/dictionary/service/Dictionary.java:46-60 | the insertion adds the word, counts it only when new, changes only its meaning and keeps the trie pruned |
| DictionaryTrie.InsertLean | src/com/dictionary/service/Dictionary.java:46-60 | insertion keeps every node other than the root either a word end or a parent |
| DictionaryTrie.LeanAddChild | src/com/dictionary/service/Dictionary.java:46-60 | hanging a lean child that ends a word or has children under a lean node keeps it lean |
| DictionaryTrie.LeanChildHasWord | src/com/dictionary/service/Dictionary.java:271-275 | in a pruned trie every node below the root stores some word |
| DictionaryTrie.PrefixExistsIffWordExtends | src/com/dictionary/service/Dictionary.java:95-101 | in a pruned trie a non-empty path exists exactly when some stored word starts with it |
| DictionaryTrie.FindPrefix | src/com/dictionary/service/Dictionary.java:183-194 | a path exists only if each of its prefixes does |
| DictionaryTrie.DeleteFind | src/com/dictionary/service/Dictionary.java:248-278 | deleting a stored word removes exactly that word, keeps every other meaning, and reports removal only of a node left empty |
| DictionaryTrie.Delete | src/com/dictionary/service/Dictionary.java:248-278 | (corrected; see Findings) deleteHelper with the end-of-word flag cleared after the meaning is reset, pruning a child left with no children and no word; DeleteFind, DeleteWords and DeleteLean state its meaning |
| DictionaryTrie.DeleteAsWritten | src/com/dictionary/service/Dictionary.java:248-278 | deleteHelper as written, where setMeaning(null) marks the node as a word end again; DeleteAsWrittenKeepsPrefixWord shows the effect |
| DictionaryTrie.DeleteWords | src/com/dictionary/service/Dictionary.java:248-278 | the stored words after the corrected deletion are the old ones minus the word |
| DictionaryTrie.DeleteLean | src/com/dictionary/service/Dictionary.java:269-275 | deletion prunes: a pruned trie stays pruned |
| DictionaryTrie.DeleteAsWrittenKeepsPrefixWord | src/com/dictionary/service/Dictionary.java:254-255 | as written, deleting a word that is a prefix of another stored word leaves it stored, because setMeaning(null) marks the node as a word end again |
| DictionaryService.DistinctWordsCount | src/com/dictionary/service/Dictionary.java:165-169 | a result list with each word once has as many entries as words |
| DictionaryService.CollectWords | src/com/dictionary/service/Dictionary.java:199-209 | the entries appended are exactly the words below the node with their meanings, each word once, and the list given is kept as a prefix |
| DictionaryService.SearchPatternHelper | src/com/dictionary/service/Dictionary.java:215-242 | the entries appended are exactly the words below the node that match the rest of the pattern, '.' matching any letter, each word once, and the list given is kept as a prefix |
| DictionaryService.EntryAtPath | src/com/dictionary/service/Dictionary.java:116-121 | collecting below the node for a prefix reports exactly the stored words with that prefix and their meanings |
| DictionaryService.PatternAtRoot | src/com/dictionary/service/Dictionary.java:137 | a search from the root reports exactly the stored words matching the pattern |
| DictionaryService.Dictionary.constructor | src/com/dictionary/service/Dictionary.java:29-32 | a new dictionary stores no word and counts 0 |
| DictionaryService.Dictionary.AddWord | src/com/dictionary/service/Dictionary.java:40-61 | an empty word fails and changes nothing; otherwise the lower-cased word is stored with the meaning, counted only when new, and every other meaning is kept |
| DictionaryService.Dictionary.FindNode | src/com/dictionary/service/Dictionary.java:183-194 | the loop finds the node at the path, or None at the first missing child |
| DictionaryService.Dictionary.GetMeaning | src/com/dictionary/service/Dictionary.java:67-78 | the meaning stored for the lower-cased word, None for an empty or absent word |
| DictionaryService.Dictionary.ContainsWord | src/com/dictionary/service/Dictionary.java:83-90 | true exactly for a non-empty word whose lower-cased form is stored |
| DictionaryService.Dictionary.StartsWith | src/com/dictionary/service/Dictionary.java:95-101 | true exactly for a non-empty prefix that some stored word starts with, after lower-casing |
| DictionaryService.Dictionary.SearchByPrefix | src/com/dictionary/service/Dictionary.java:108-124 | exactly the stored words starting with the lower-cased prefix, with their meanings, each once; nothing for an empty prefix |
| DictionaryService.Dictionary.SearchByPattern | src/com/dictionary/service/Dictionary.java:130-139 | exactly the stored words matching the lower-cased pattern, with their meanings, each once; nothing for an empty pattern |
| DictionaryService.Dictionary.DeleteWord | src/com/dictionary/service/Dictionary.java:145-160 | (corrected; see Findings) true exactly for a stored word; then the word is gone, the count drops by one and every other meaning is kept; otherwise nothing changes |
| DictionaryService.Dictionary.GetAllWords | src/com/dictionary/service/Dictionary.java:165-169 | every stored word once with its meaning, as many entries as the word count |
| DictionaryService.Dictionary.GetWordCount | src/com/dictionary/service/Dictionary.java:174-176 | the count equals the number of stored words |
| DictionaryService.AppSurvivesDeleteAsWritten | src/com/dictionary/service/Dictionary.java:248-258 | with "app" and "apple" stored, the written deletion of "app" leaves "app" stored |
| AutocompleteTrie.GetChild | src/com/autocomplete/model/TrieNode.java:64-75 | a child comes back exactly when hasChild holds for the character, and it is the node stored under it |
| AutocompleteTrie.GetOrCreateChild | src/com/autocomplete/model/TrieNode.java:90-95 | afterwards the character has a child; an existing child is kept, otherwise a new empty node is added, and the node's own flag, sentence and frequency are kept |
| AutocompleteTrie.MarkAsEndOfSentence | src/com/autocomplete/model/TrieNode.java:113-117 | the node becomes an end node holding exactly the given sentence and frequency, with the same children |
| AutocompleteTrie.IncrementFrequency | src/com/autocomplete/model/TrieNode.java:122-124 | the frequency goes up by one and nothing else changes |
| AutocompleteTrie.NewNode | src/com/autocomplete/model/TrieNode.java:51-56 | a new node has no children, is not an end node, has frequency 0 and no sentence |
| AutocompleteTrie.NewNodeStoresNothing | src/com/autocomplete/model/TrieNode.java:51-56 | a new trie stores no sentence |
| AutocompleteTrie.InsertFreq | src/com/autocomplete/service/SearchAutocomplete.java:109-125 | after insert(w, f) the frequency stored for w is its old one (0 if absent) plus f, and every other sentence keeps its frequency or stays absent |
| AutocompleteTrie.Insert | src/com/autocomplete/service/SearchAutocomplete.java:109-125 | insert as a rule: nodes are created along the sentence and its end node is marked with the sentence and the old frequency plus f, or f when it was not an end; InsertFreq, InsertFreqs and InsertLabelled state its meaning |
| AutocompleteTrie.InsertFreqs | src/com/autocomplete/service/SearchAutocomplete.java:109-125 | the same statement for all sentences at once |
| AutocompleteTrie.InsertLabelled | src/com/autocomplete/service/SearchAutocomplete.java:113-124 | inserting a sentence at its own path keeps every end node holding the sentence spelled by its path |
| AutocompleteTrie.IncrementIsInsert | src/com/autocomplete/service/SearchAutocomplete.java:168-175 | incrementing a stored sentence's node gives the same trie as inserting it once more with frequency 1 |
| AutocompleteTrie.FindPrefix | src/com/autocomplete/service/SearchAutocomplete.java:216-223 | a node exists for an input only if one exists for each of its prefixes |
| AutocompleteTrie.NoPathNoSentence | src/com/autocomplete/service/SearchAutocomplete.java:208-213 | once no node matches the input, no stored sentence starts with the input, so the empty answer is right |
| AutocompleteTrie.DeadEndPersists | src/com/autocomplete/service/SearchAutocomplete.java:208-213 | an input no node matches stays unmatched whatever character is typed next |
| AutocompleteTrie.EntryAtPath | src/com/autocomplete/service/SearchAutocomplete.java:252-264 | collecting below the node for an input reports exactly the stored sentences that start with the input, each with its stored frequency |
| SentenceRanking.CompareStringsSign | src/com/autocomplete/model/SentenceFrequency.java:50 | String.compareTo is negative exactly when the first string is lexicographically smaller, and zero exactly when the strings are equal |
| SentenceRanking.CompareTo | src/com/autocomplete/model/SentenceFrequency.java:43-51 | compareTo as a rule: the frequency difference, higher first, and the sentences' string comparison on equal frequencies; CompareToRanks states its meaning |
| SentenceRanking.LexLessTransitive | src/com/autocomplete/model/SentenceFrequency.java:50 | the lexicographic order on sentences is transitive |
| SentenceRanking.LexLessTotal | src/com/autocomplete/model/SentenceFrequency.java:50 | two different sentences are ordered one way or the other |
| SentenceRanking.CompareToRanks | src/com/autocomplete/model/SentenceFrequency.java:43-51 | compareTo is negative exactly when the first entry ranks first (higher frequency, or equal frequency and smaller sentence), zero exactly on equal entries, and positive exactly when the second ranks first |
| SentenceRanking.BeforeTransitive | src/com/autocomplete/model/SentenceFrequency.java:43-51 | the ranking compareTo defines is transitive |
| SentenceRanking.InsertByRank | src/com/autocomplete/service/SearchAutocomplete.java:232 | one insertion step of the sort adds the entry and keeps every other entry |
| SentenceRanking.InsertByRankSorted | src/com/autocomplete/service/SearchAutocomplete.java:232 | inserting into a ranked list keeps it ranked |
| SentenceRanking.SortByRank | src/com/autocomplete/service/SearchAutocomplete.java:232 | Collections.sort by compareTo returns a permutation of its input |
| SentenceRanking.SortByRankSorted | src/com/autocomplete/service/SearchAutocomplete.java:232 | the sorted list is in ranking order |
| SentenceRanking.DocExampleOrder | src/com/autocomplete/model/SentenceFrequency.java:43-51 | ("hey",3), ("hi",4), ("hello",4) sort to ("hello",4), ("hi",4), ("hey",3) |
| SearchAutocompleteService.Tally | src/com/autocomplete/service/SearchAutocomplete.java:88-90 | the constructor stores a frequency for a sentence exactly when it is one of the phrases |
| SearchAutocompleteService.SortedStaysDistinct | src/com/autocomplete/service/SearchAutocomplete.java:226-232 | sorting the collected entries keeps each sentence at most once |
| SearchAutocompleteService.TopOfSorted | src/com/autocomplete/service/SearchAutocomplete.java:235-238 | the first min(3, n) sentences of the sorted matches are the top suggestions: stored, extending the input, in ranking order, and every sentence left out ranks after them |
| SearchAutocompleteService.CollectSentences | src/com/autocomplete/service/SearchAutocomplete.java:252-264 | the entries appended after the given list are exactly the end nodes below the node, each sentence once, and the list given is kept as a prefix |
| SearchAutocompleteService.Suggest | src/com/autocomplete/service/SearchAutocomplete.java:226-241 | the answer is the top-three ranking of stored sentences extending the input |
| SearchAutocompleteService.RankedMatches | src/com/autocomplete/service/SearchAutocomplete.java:227-232 | the collected sentences, once sorted, are in rank order, without repeats, and exactly the stored sentences extending the input with their frequencies |
| SearchAutocompleteService.SearchAutocomplete.constructor | src/com/autocomplete/service/SearchAutocomplete.java:82-95 | the input is empty, the cursor is at the root, and each phrase is stored with the sum of its counts; nothing else is stored |
| SearchAutocompleteService.SearchAutocomplete.InsertSentence | src/com/autocomplete/service/SearchAutocomplete.java:109-125 | the sentence's frequency grows by the given amount (from 0 if absent), every other sentence keeps its frequency, and the input and cursor are kept |
| SearchAutocompleteService.SearchAutocomplete.GetSuggestions | src/com/autocomplete/service/SearchAutocomplete.java:141-152 | '#' counts the typed sentence once more, returns nothing and resets the input; any other character is appended and answered with the top suggestions for the new input |
| SearchAutocompleteService.SearchAutocomplete.HandleEndOfSentence | src/com/autocomplete/service/SearchAutocomplete.java:161-187 | a non-empty input has its frequency raised by one (stored with 1 if new), an empty input changes nothing, and the input and cursor go back to the start |
| SearchAutocompleteService.SearchAutocomplete.HandleRegularCharacter | src/com/autocomplete/service/SearchAutocomplete.java:197-242 | the character is appended, the trie is unchanged, a lost cursor answers nothing, and the answer is the top suggestions for the new input |
| SnakeRules.NextHead | src/com/snake/model/Snake.java:35-47 | UP takes one off the row, DOWN adds one, LEFT takes one off the column, RIGHT adds one |
| SnakeRules.MovesAgreeAndCancel | src/com/snake/simple/Cell.java:18-20 | Cell.move with the Direction deltas gives the same cell as getNextHead, never the cell itself, and the opposite move returns to the start |
| SnakeRules.IsWall | src/com/snake/simple/SnakeGame.java:124-127 | a cell is a wall exactly when its row or column is off the board |
| SnakeRules.HitsBodyMeaning | src/com/snake/simple/SnakeGame.java:105-120 | with an accurate set, hitsBody is true exactly when the new head lands on a cell still occupied after the move: any body cell when eating, any but the tail otherwise |
| SnakeRules.Slide | src/com/snake/simple/SnakeGame.java:80-86 | after a plain move the body keeps its length and starts with the new head |
| SnakeRules.Grow | src/com/snake/simple/SnakeGame.java:91-95 | after eating, the body is the new head followed by the whole old body |
| SnakeRules.SlideSetAsWritten | src/com/snake/simple/SnakeGame.java:80-86 | moveSnake's set update as written: the head is added, then the tail removed; TailChaseLosesHead and NeckCollisionMissed show what this loses |
| SnakeRules.SlideSet | src/com/snake/simple/SnakeGame.java:80-86 | (corrected; see Findings) the tail is removed, then the head added; SlideTracksBody states that the set then equals the body |
| SnakeRules.SlideTracksBody | src/com/snake/simple/SnakeGame.java:80-86 | a move that does not crash keeps the body free of repeats, and the corrected set update (tail out, then head in) keeps the set equal to the body |
| SnakeRules.GrowTracksBody | src/com/snake/simple/SnakeGame.java:91-95 | eating without crashing keeps the body free of repeats and the set equal to the body |
| SnakeRules.FirstFree | src/com/snake/simple/SnakeGame.java:129-138 | the food the retry loop settles on is a drawn cell outside the body |
| SnakeRules.TailChaseLosesHead | src/com/snake/simple/SnakeGame.java:80-86 | as written (head in, then tail out), a move onto the old tail leaves the new head in the body but not in the set |
| SnakeRules.NeckCollisionMissed | src/com/snake/model/Snake.java:53-61 | a four-cell snake circling a 2x2 square with the written set update turns back onto its own body on the third move and hitsBody misses it |
| SnakeSimple.SnakeGame.constructor | src/com/snake/simple/SnakeGame.java:29-40 | a one-cell snake at the centre, score 0, game running, food the first draw off the snake |
| SnakeSimple.SnakeGame.GenerateFood | src/com/snake/simple/SnakeGame.java:129-138 | the food becomes the first drawn cell outside the body; nothing else changes |
| SnakeSimple.SnakeGame.MoveSnake | src/com/snake/simple/SnakeGame.java:80-86 | (corrected; see Findings) the body slides onto the new head and the set follows the corrected update; food, score and game state are kept |
| SnakeSimple.SnakeGame.GrowSnake | src/com/snake/simple/SnakeGame.java:91-95 | the new head is added to the body and the set; nothing else changes |
| SnakeSimple.SnakeGame.Move | src/com/snake/simple/SnakeGame.java:45-73 | (corrected; see Findings) a finished game stays finished; a wall or body hit ends the game with the snake and the food unchanged; eating grows the snake, scores one and puts the food on the first drawn cell off the grown snake; otherwise the snake slides, with the corrected set update |
| SnakeSimple.WallScenario | src/com/snake/simple/SimpleSnakeDemo.java:35-46 | on a 5x5 board three moves UP from the centre end the game on the third move and not before |
| SnakeLayered.Snake.constructor | src/com/snake/model/Snake.java:19-26 | a new snake is the single starting cell, which is also its head |
| SnakeLayered.Snake.Move | src/com/snake/model/Snake.java:53-61 | (corrected; see Findings) the body slides onto the new head and the set follows the corrected update |
| SnakeLayered.Snake.Grow | src/com/snake/model/Snake.java:66-69 | the new head is added to the body and the set |
| SnakeLayered.Snake.CheckCrash | src/com/snake/model/Snake.java:78-100 | on an accurate snake, a crash exactly when the cell is still occupied after the move: any body cell when growing, any but the tail otherwise |
| SnakeLayered.Snake.CheckCrashStrict | src/com/snake/model/Snake.java:103-105 | on an accurate snake, a crash exactly when the cell is in the body |
| SnakeLayered.Board.constructor | src/com/snake/model/Board.java:14-19 | the board has the given size and a first food from one draw, on the board |
| SnakeLayered.Board.GenerateFood | src/com/snake/model/Board.java:23-27 | the food becomes the drawn cell |
| SnakeLayered.Board.GenerateFoodAvoiding | src/com/snake/model/Board.java:30-42 | the food becomes the first draw off the snake, on the board |
| SnakeLayered.Board.IsWall | src/com/snake/model/Board.java:44-47 | a cell is a wall exactly when it is off the board |
| SnakeLayered.SnakeGame.constructor | src/com/snake/game/SnakeGame.java:17-26 | a board of the given size, a one-cell snake at its centre, score 0, game running, food placed off the snake |
| SnakeLayered.SnakeGame.Move | src/com/snake/game/SnakeGame.java:31-63 | (corrected; see Findings) a finished game stays finished and a wall or crash ends the game, each with the snake and the food unchanged; eating grows the snake, scores one and puts the food on the first drawn cell off the grown snake; otherwise the snake slides, with the corrected set update, and the food stays |
| SnakeLayered.WallScenario | src/com/snake/SnakeEdgeCaseTest.java:27-40 | on a 5x5 board three moves UP from (2,2) end the game on the third move and not before |
| TicTacToeRules.EmptyGrid | src/com/tictactoe/simple/Board.java:17-28 | a new n×n grid has every cell empty |
| TicTacToeRules.Place | src/com/tictactoe/simple/Board.java:46 | placing a symbol writes exactly the chosen cell and leaves every other cell as it was |
| TicTacToeRules.LastMoveDecides | src/com/tictactoe/simple/Board.java:55-69 | on a grid where t has no complete line, t has one after a move exactly when t made the move and one of the lines through the moved-to cell is complete, so checking only the last move's lines finds every new win |
| TicTacToeRules.MoveKeepsNoLine | src/com/tictactoe/simple/Board.java:55-69 | from a grid with no complete line, a move that does not win through its own cell leaves no complete line for anyone, and one that does gives the mover a line |
| TicTacToeRules.EmptyGridNoLine | src/com/tictactoe/simple/Board.java:17-28 | a new grid of positive size has no complete line |
| TicTacToeRules.PlaceFillsOne | src/com/tictactoe/simple/Board.java:46-47 | a move onto an empty cell adds exactly that cell to the filled cells, so the filled count goes up by one alongside moveCount |
| TicTacToeRules.FullIffAllFilled | src/com/tictactoe/simple/Board.java:112-114 | n·n cells filled holds exactly when every cell is filled, which is why comparing the move count with size·size decides fullness |
| TicTacToeRules.CountReachesSizeIffWon | src/com/tictactoe/strategy/OrderOneWinningStrategy.java:90 | a symbol's count on a row, column, diagonal or anti-diagonal reaches n exactly when that line is complete for it |
| TicTacToeRules.PlaceRowCount | src/com/tictactoe/strategy/OrderOneWinningStrategy.java:52 | a move adds one to its own row's count for its own symbol and changes no other row or symbol count |
| TicTacToeRules.PlaceColCount | src/com/tictactoe/strategy/OrderOneWinningStrategy.java:57 | a move adds one to its own column's count for its own symbol and changes no other column or symbol count |
| TicTacToeRules.PlaceDiagCount | src/com/tictactoe/strategy/OrderOneWinningStrategy.java:63-67 | a move adds one to the main diagonal's count of its symbol exactly when row equals column |
| TicTacToeRules.PlaceAntiDiagCount | src/com/tictactoe/strategy/OrderOneWinningStrategy.java:71-75 | a move adds one to the anti-diagonal's count of its symbol exactly when row + column is size − 1 |
| TicTacToeRules.EmptyGridCounts | src/com/tictactoe/strategy/OrderOneWinningStrategy.java:30-39 | on a new grid every line count is zero, matching the strategy's empty maps |
| TicTacToeSimple.SettledAfterMove | src/com/tictactoe/simple/Game.java:50-65 | from an unfinished game with no line, a winning move leaves a finished game whose winner owns a line, a move that fills the board finishes it, and any other move leaves no line and the game running |
| TicTacToeSimple.Board.constructor | src/com/tictactoe/simple/Board.java:17-28 | a new board of the given size has every cell empty and a move count of 0 |
| TicTacToeSimple.Board.MakeMove | src/com/tictactoe/simple/Board.java:34-49 | a move is accepted exactly when the cell is on the board and empty; then the symbol is placed there and the move count goes up by one, otherwise nothing changes |
| TicTacToeSimple.Board.CheckRow | src/com/tictactoe/simple/Board.java:71-78 | true exactly when every cell of the row holds the symbol |
| TicTacToeSimple.Board.CheckCol | src/com/tictactoe/simple/Board.java:80-87 | true exactly when every cell of the column holds the symbol |
| TicTacToeSimple.Board.CheckDiagonal | src/com/tictactoe/simple/Board.java:89-97 | true exactly when every cell of the main diagonal holds the symbol |
| TicTacToeSimple.Board.CheckAntiDiagonal | src/com/tictactoe/simple/Board.java:99-107 | true exactly when every cell of the anti-diagonal holds the symbol |
| TicTacToeSimple.Board.CheckWinner | src/com/tictactoe/simple/Board.java:55-69 | true exactly when the symbol fills the cell's row, its column, or a diagonal the cell lies on |
| TicTacToeSimple.Board.IsFull | src/com/tictactoe/simple/Board.java:112-114 | true exactly when every cell holds a symbol |
| TicTacToeSimple.Game.constructor | src/com/tictactoe/simple/Game.java:19-25 | a new game has an empty board of the given size, the two players in order, the first to move, no winner and is not over |
| TicTacToeSimple.Game.MakeMove | src/com/tictactoe/simple/Game.java:31-70 | a move is refused once the game is over or when the board refuses it, changing nothing; an accepted move places the current player's symbol; a win ends the game with that player as winner, a full board ends it with no winner, and otherwise the turn passes to the other player |
| TicTacToeSimple.Game.RecordOutcome | src/com/tictactoe/simple/Game.java:50-67 | after a placed move, a win through its cell ends the game with the mover as winner, a full board ends it with no winner, and otherwise the turn passes; the game stays settled on its grid |
| TicTacToeSimple.DiagonalWinScenario | src/com/tictactoe/simple/SimpleTicTacToeDemo.java:21-25 | X at (0,0), O at (0,1), X at (1,1), O at (0,2), X at (2,2) ends the game with Alice (X) the winner |
| TicTacToeSimple.OpeningMoves | src/com/tictactoe/simple/SimpleTicTacToeDemo.java:21-22 | the first two moves of that game place X and O, leave the game running and give the turn back to Alice |
| TicTacToeSimple.ReplyAtTop | src/com/tictactoe/simple/SimpleTicTacToeDemo.java:22 | Bob's reply at (0,1) is placed and the turn passes back to Alice |
| TicTacToeSimple.LaterMoves | src/com/tictactoe/simple/SimpleTicTacToeDemo.java:23-24 | the third and fourth moves leave nobody winning, (2,2) empty and Alice to move |
| TicTacToeSimple.OccupiedCellScenario | src/com/tictactoe/simple/SimpleTicTacToeDemo.java:51-52 | a second move onto the centre is refused and Bob is still the player to move |
| TicTacToeStrategy.Bump | src/com/tictactoe/strategy/OrderOneWinningStrategy.java:83-91 | incrementAndCheck's map update: the symbol's count at the index goes up by one from 0 when absent, and every other index and symbol keeps its count |
| TicTacToeStrategy.BumpDiagonal | src/com/tictactoe/strategy/OrderOneWinningStrategy.java:96-101 | the diagonal map update: the symbol's count goes up by one from 0 when absent, and every other symbol keeps its count |
| TicTacToeStrategy.RowsAfterPlace | src/com/tictactoe/strategy/OrderOneWinningStrategy.java:52 | row counts that agree with the grid still agree after a move when the move's row is bumped |
| TicTacToeStrategy.ColsAfterPlace | src/com/tictactoe/strategy/OrderOneWinningStrategy.java:57 | column counts that agree with the grid still agree after a move when the move's column is bumped |
| TicTacToeStrategy.LeftAfterPlace | src/com/tictactoe/strategy/OrderOneWinningStrategy.java:63-67 | main-diagonal counts stay in agreement when they are bumped exactly for moves with row equal to column |
| TicTacToeStrategy.RightAfterPlace | src/com/tictactoe/strategy/OrderOneWinningStrategy.java:71-75 | anti-diagonal counts stay in agreement when they are bumped exactly for moves with row + column = size − 1 |
| TicTacToeStrategy.RowReached | src/com/tictactoe/strategy/OrderOneWinningStrategy.java:52-54 | after the bump, the row's count equals size exactly when the move completes its row |
| TicTacToeStrategy.ColReached | src/com/tictactoe/strategy/OrderOneWinningStrategy.java:57-59 | after the bump, the column's count equals size exactly when the move completes its column |
| TicTacToeStrategy.DiagReached | src/com/tictactoe/strategy/OrderOneWinningStrategy.java:63-67 | for a move on the main diagonal, the bumped count equals size exactly when the diagonal is complete |
| TicTacToeStrategy.AntiDiagReached | src/com/tictactoe/strategy/OrderOneWinningStrategy.java:71-75 | for a move on the anti-diagonal, the bumped count equals size exactly when the anti-diagonal is complete |
| TicTacToeStrategy.CheckMatchesScan | src/com/tictactoe/strategy/OrderOneWinningStrategy.java:46-78 | with counters that agree with the grid, the O(1) counter check reports a win exactly when the board's scan of the moved-to cell's lines does |
| TicTacToeStrategy.Check | src/com/tictactoe/strategy/OrderOneWinningStrategy.java:46-78 | checkWinner on the counters as a rule: bump the row, then the column, then each diagonal the cell lies on, stopping at the first counter that reaches the size; CheckMatchesScan and CheckKeepsAgreement state its meaning |
| TicTacToeStrategy.CheckKeepsAgreement | src/com/tictactoe/strategy/OrderOneWinningStrategy.java:46-78 | after a non-winning check, the updated counters agree with the grid after the move |
| TicTacToeStrategy.BumpAllKeepsAgreement | src/com/tictactoe/strategy/OrderOneWinningStrategy.java:46-78 | bumping the counters of every line through the move keeps them equal to the per-line counts of the grid after the move |
| TicTacToeStrategy.OrderOneWinningStrategy.constructor | src/com/tictactoe/strategy/OrderOneWinningStrategy.java:41-43 | a new strategy has empty count maps, which agree with an empty grid |
| TicTacToeStrategy.OrderOneWinningStrategy.IncrementAndCheck | src/com/tictactoe/strategy/OrderOneWinningStrategy.java:83-91 | the per-index map is bumped for the symbol, and the answer is whether the new count equals size |
| TicTacToeStrategy.OrderOneWinningStrategy.IncrementAndCheckDiagonal | src/com/tictactoe/strategy/OrderOneWinningStrategy.java:96-101 | the diagonal map is bumped for the symbol, and the answer is whether the new count equals size |
| TicTacToeStrategy.OrderOneWinningStrategy.CheckWinner | src/com/tictactoe/strategy/OrderOneWinningStrategy.java:46-78 | the answer and the new counters are those of the counter check, which stops bumping at the first line that reaches size |
| ChessRules.EmptyGrid | src/com/chess/service/Board.java:11-18 | a new board is 8 by 8 with every square empty |
| ChessRules.WalkReachesEnd | src/com/chess/piece/Piece.java:26-41 | the path walk, stepping by the signs of the row and column differences, stands on the end square after exactly the number of steps, and on no earlier step |
| ChessRules.PathIgnoresEnds | src/com/chess/piece/Piece.java:33-39 | whether the path is clear depends only on the squares strictly between start and end |
| ChessRules.PathClear | src/com/chess/piece/Piece.java:26-41 | isPathClear as a rule on aligned squares: every square the signum walk visits strictly between start and end is empty; WalkReachesEnd and PathIgnoresEnds state its meaning |
| ChessRules.PawnMoves | src/com/chess/piece/Pawn.java:14-34 | a pawn move is exactly one of: one step forward onto an empty square; two steps forward from an unmoved pawn over an empty middle square onto an empty square; one step diagonally forward onto an opponent's piece |
| ChessRules.PawnCanMove | src/com/chess/piece/Pawn.java:14-34 | Pawn.canMove as a rule, branch for branch; PawnMoves and PawnNeverTakesOwn state its meaning |
| ChessRules.KnightCanMove | src/com/chess/piece/Knight.java:14-20 | Knight.canMove as a rule: two squares one way and one the other; KnightSymmetric and QueenCannotJump state its meaning |
| ChessRules.BishopCanMove | src/com/chess/piece/Bishop.java:14-20 | Bishop.canMove as a rule: a diagonal of positive length with a clear path; QueenIsRookOrBishop and BishopBlockedAtStart state its meaning |
| ChessRules.RookCanMove | src/com/chess/piece/Rook.java:14-18 | Rook.canMove as a rule: a row or column with a clear path; RookStraight and StayingPut state its meaning |
| ChessRules.QueenCanMove | src/com/chess/piece/Queen.java:14-23 | Queen.canMove as a rule: a line or diagonal with a clear path; QueenIsRookOrBishop and QueenCannotJump state its meaning |
| ChessRules.KingCanMove | src/com/chess/piece/King.java:14-20 | King.canMove as a rule: at most one square each way and not staying; KingOneSquare states its meaning |
| ChessRules.PawnNeverTakesOwn | src/com/chess/piece/Pawn.java:29-31 | a pawn never moves onto a piece of its own colour |
| ChessRules.KnightSymmetric | src/com/chess/piece/Knight.java:14-20 | a knight reaches a square exactly when it could come back from there |
| ChessRules.StayingPut | src/com/chess/piece/Rook.java:14-18 | a move onto the start square is accepted for a rook and a queen and rejected for every other kind |
| ChessRules.KnightAndKingIgnoreBoard | src/com/chess/piece/Knight.java:14-20 | a knight or king move is allowed or refused independently of what stands on the board |
| ChessRules.DestinationIgnored | src/com/chess/piece/Queen.java:14-23 | every kind but the pawn ignores what stands on the destination square |
| ChessRules.RookStraight | src/com/chess/piece/Rook.java:16-17 | a rook move keeps the row or the column |
| ChessRules.QueenIsRookOrBishop | src/com/chess/piece/Queen.java:14-23 | away from the start square, a queen may move exactly where a rook or a bishop could |
| ChessRules.QueenCannotJump | src/com/chess/piece/Queen.java:19-22 | no knight's jump is a queen move |
| ChessRules.KingOneSquare | src/com/chess/piece/King.java:14-20 | the king moves exactly to the eight neighbouring squares |
| ChessPosition.BackRankKinds | src/com/chess/service/Board.java:34-43 | the back rank holds rooks in columns 0 and 7, knights in 1 and 6, bishops in 2 and 5, the queen in 3, the king in 4, and no pawn |
| ChessPosition.Initialized | src/com/chess/service/Board.java:20-32 | after initialize, rows 0 and 7 hold the back ranks and rows 1 and 6 the pawns, White on rows 0 and 1, all unmoved, and rows 2 to 5 keep what they held |
| ChessPosition.InitialLayout | src/com/chess/service/Board.java:20-32 | the starting position has pieces exactly on rows 0, 1, 6 and 7, none of them moved, White's exactly on rows 0 and 1 |
| ChessPosition.KingSquare | src/com/chess/service/Board.java:50-60 | findKing returns a square holding that colour's king with no such king before it in scan order, and None exactly when that colour has no king |
| ChessPosition.KingSquareIs | src/com/chess/service/Board.java:50-60 | a king square with no king of its colour before it in scan order is the one findKing returns |
| ChessPosition.InCheck | src/com/chess/service/Game.java:112-115 | isInCheck has no answer (the source dereferences null) exactly when that colour has no king on the board |
| ChessPosition.InitialKings | src/com/chess/service/Board.java:20-43 | in the starting position the kings stand on e1 and e8 |
| ChessPosition.InitialE1Safe | src/com/chess/service/Board.java:62-74 | no Black piece attacks e1 in the starting position |
| ChessPosition.InitialE8Safe | src/com/chess/service/Board.java:62-74 | no White piece attacks e8 in the starting position |
| ChessPosition.InitialNoCheck | src/com/chess/service/Game.java:112-115 | neither side is in check in the starting position |
| ChessPosition.BishopBlockedAtStart | src/com/chess/ChessDemo.java:98-101 | the c1 bishop cannot reach e3 at the start, because the d2 pawn blocks it |
| ChessBoard.Board.constructor | src/com/chess/service/Board.java:11-18 | a new board has every square empty |
| ChessBoard.Board.SetPiece | src/com/chess/service/Board.java:24 | cell.setPiece changes exactly that square |
| ChessBoard.Board.PlacePieces | src/com/chess/service/Board.java:34-43 | the row becomes R N B Q K B N R of the colour, unmoved, and no other row changes |
| ChessBoard.Board.PlacePawns | src/com/chess/service/Board.java:23-25 | the row becomes eight unmoved pawns of the colour, and no other row changes |
| ChessBoard.Board.Initialize | src/com/chess/service/Board.java:20-32 | the squares become the starting layout over what stood on rows 2 to 5 |
| ChessBoard.Board.GetCell | src/com/chess/service/Board.java:45-48 | None exactly off the board, otherwise the square with its piece |
| ChessBoard.Board.FindKing | src/com/chess/service/Board.java:50-60 | the scan returns the first king square of the colour in row-major order, or None exactly when there is none |
| ChessBoard.Board.IsPathClear | src/com/chess/piece/Piece.java:26-41 | the loop answers whether every square strictly between start and end is empty |
| ChessBoard.Board.CanMove | src/com/chess/piece/Piece.java:17 | the dispatch to the piece's own canMove agrees with the movement rule of its kind |
| ChessBoard.Board.IsSquareUnderAttack | src/com/chess/service/Board.java:62-74 | the scan answers true exactly when some piece of the attacker's colour may move onto the square |
| ChessMoves.Executed | src/com/chess/model/Move.java:22-27 | after execute the start square is empty, the end square holds the piece marked moved, and no other square changes |
| ChessMoves.Restored | src/com/chess/model/Move.java:32-34 | undo leaves the piece's moved flag set unless this was its first move |
| ChessMoves.Reverted | src/com/chess/model/Move.java:29-35 | after undo the end square holds what was captured, the start square holds the piece, and no other square changes |
| ChessMoves.UndoRestores | src/com/chess/model/Move.java:14-35 | undo right after execute gives back the board the move was made on, moved flag included |
| ChessMoves.Execute | src/com/chess/model/Move.java:22-27 | the board becomes the executed board, and the move records what stood on the end square |
| ChessMoves.Undo | src/com/chess/model/Move.java:29-35 | the board becomes the reverted board |
| ChessGame.Play | src/com/chess/service/Game.java:28-97 | makeMove keeps the game coherent: two players, a turn of 0 or 1, and a history of moves that each fit the board |
| ChessGame.UndoLast | src/com/chess/service/Game.java:99-110 | undoLastMove keeps the board and the history well formed |
| ChessGame.RejectedChangesNothing | src/com/chess/service/Game.java:28-75 | a refused move leaves board, turn, status and history as they were, a move rolled back for exposing the mover's king included |
| ChessGame.ProceedAccepted | src/com/chess/service/Game.java:67-96 | an accepted move leaves the executed board, the move on top of the history, the other player to move, the mover's king not attacked, and the game won by the mover exactly when the opponent's king is attacked |
| ChessGame.AcceptedMove | src/com/chess/service/Game.java:28-97 | a move is accepted exactly when it passes every check, leaves the mover's king unattacked and the opponent still has a king |
| ChessGame.OverIsFinal | src/com/chess/service/Game.java:29-32 | once the game has ended every move is refused and nothing changes |
| ChessGame.UndoPops | src/com/chess/service/Game.java:99-110 | popping and undoing a move gives back the board, turn and history from before it |
| ChessGame.UndoAfterPlay | src/com/chess/service/Game.java:99-110 | undo after an accepted move restores board, turn and history; a status the move set is kept |
| ChessGame.KingsStayOnBoard | src/com/chess/service/Game.java:112-115 | with both kings on the board and no king on the end square, the king lookups inside makeMove always find a king |
| ChessGame.OpeningRejections | src/com/chess/ChessDemo.java:52-56 | Black may not open, a move off the board is refused, and an empty square has nothing to move |
| ChessGame.OpeningBlocked | src/com/chess/ChessDemo.java:123-127 | the a1 rook may not take its own knight, and the c1 bishop is blocked by the d2 pawn |
| ChessGame.NothingToUndo | src/com/chess/ChessDemo.java:177-181 | undo at the start returns false and changes nothing |
| ChessGame.E1SafeAfterPawnStep | src/com/chess/ChessDemo.java:59-63 | after e2-e3 no Black piece attacks e1 |
| ChessGame.WhiteKingAfterPawnStep | src/com/chess/ChessDemo.java:59-63 | after e2-e3 White's king is still found on e1 |
| ChessGame.BlackKingAfterPawnStep | src/com/chess/ChessDemo.java:59-63 | after e2-e3 Black's king is still found on e8 |
| ChessGame.PawnStepAccepted | src/com/chess/ChessDemo.java:59-63 | e2-e3 is accepted and hands the move to Black |
| ChessGame.Game.constructor | src/com/chess/service/Game.java:14-20 | a new game has an empty board, the first player to move, status in progress and no history |
| ChessGame.Game.Start | src/com/chess/service/Game.java:22-26 | start lays out the pieces and changes nothing else |
| ChessGame.Game.IsInCheck | src/com/chess/service/Game.java:112-115 | the answer is whether the colour's king square is attacked by the other colour, None when there is no king |
| ChessGame.Game.IsCheckmate | src/com/chess/service/Game.java:117-121 | isCheckmate answers exactly what isInCheck answers |
| ChessGame.Game.Screen | src/com/chess/service/Game.java:29-64 | the checks before the board is touched pass exactly for an admissible move, and then return the piece on the start square |
| ChessGame.Game.MakeMove | src/com/chess/service/Game.java:28-97 | the new state and the answer are those of the makeMove rule |
| ChessGame.Game.UndoLastMove | src/com/chess/service/Game.java:99-110 | the new state and the answer are those of the undoLastMove rule |
| SnakeLadderRules.NoJumpOnLastSquare | src/com/snakeladder/model/Board.java:15-21 | on a board whose jumps passed addJump's bounds, no jump starts on the last square and every jump ends on the board |
| SnakeLadderRules.Turn | src/com/snakeladder/service/Game.java:26-73 | makeMove keeps the players' names and a valid current index, and changes the table only for the current player's request in a running game |
| SnakeLadderRules.Overshoot | src/com/snakeladder/service/Game.java:43-44 | a roll past the last square moves nobody, reports how many squares were needed, and passes the turn on |
| SnakeLadderRules.Advance | src/com/snakeladder/service/Game.java:45-59 | a roll that stays on the board moves the current player to the landing square, taking at most one jump, and changes no other player |
| SnakeLadderRules.Landing | src/com/snakeladder/service/Game.java:47-55 | the square a player reaching pos ends on: the end of the jump starting there, looked up once, or pos itself; Advance states its use |
| SnakeLadderRules.WinKeepsTurn | src/com/snakeladder/service/Game.java:62-70 | landing exactly on the last square ends the game and keeps the turn with the winner; any other landing passes the turn on |
| SnakeLadderRules.TurnKeepsSettled | src/com/snakeladder/service/Game.java:26-73 | a game where a winner stands exactly on the last square and nobody else does stays so after makeMove |
| SnakeLadderRules.TurnKeepsOnBoard | src/com/snakeladder/service/Game.java:43-59 | with jumps that fit the board and a roll that is not negative, no player leaves the board |
| SnakeLadderRules.Turns | src/com/snakeladder/SnakeLadderDemo.java:38-49 | a series of requests keeps the table well formed |
| SnakeLadderRules.EndedIsFinal | src/com/snakeladder/service/Game.java:27 | once someone has won, no further request changes anything |
| SnakeLadderRules.TurnsKeepSettled | src/com/snakeladder/service/Game.java:26-73 | a game stays settled however many requests come in |
| SnakeLadderRules.Lineup | src/com/snakeladder/factory/GameFactory.java:130-136 | a new table seats one player per name, in order, all on square 0, with the first to move and nobody won |
| SnakeLadderRules.LineupSettled | src/com/snakeladder/service/Game.java:17-23 | a new game on a board with at least one square is settled and on the board |
| SnakeLadderGame.Board.constructor | src/com/snakeladder/model/Board.java:10-13 | a new board has the given size and no jumps |
| SnakeLadderGame.Board.AddJump | src/com/snakeladder/model/Board.java:15-21 | passes exactly when 1 <= start < size and 1 <= end <= size; then the jump replaces whatever started there; otherwise it throws and nothing changes |
| SnakeLadderGame.Board.GetJump | src/com/snakeladder/model/Board.java:23-25 | the jump filed under the position or None; a jump found starts there, not on the last square, and ends on the board |
| SnakeLadderGame.Game.constructor | src/com/snakeladder/service/Game.java:17-23 | the first player moves and nobody has won |
| SnakeLadderGame.Game.MakeMove | src/com/snakeladder/service/Game.java:26-73 | the new table and the answer are those of the makeMove rule with the rolled value |
| SnakeLadderFactory.Builder.constructor | src/com/snakeladder/factory/GameConfig.java:46-50 | the defaults are 100 squares, no players, no snakes or ladders and the normal die |
| SnakeLadderFactory.Builder.BoardSize | src/com/snakeladder/factory/GameConfig.java:52-55 | only the board size changes |
| SnakeLadderFactory.Builder.AddPlayer | src/com/snakeladder/factory/GameConfig.java:57-60 | the name is appended and nothing else changes |
| SnakeLadderFactory.Builder.AddPlayers | src/com/snakeladder/factory/GameConfig.java:62-67 | the names are appended in order and nothing else changes |
| SnakeLadderFactory.Builder.AddSnake | src/com/snakeladder/factory/GameConfig.java:69-75 | fails exactly when the head is not above the tail, adding nothing; otherwise the snake is appended |
| SnakeLadderFactory.Builder.AddLadder | src/com/snakeladder/factory/GameConfig.java:77-83 | fails exactly when the bottom is not below the top, adding nothing; otherwise the ladder is appended |
| SnakeLadderFactory.Builder.UseDiceStrategy | src/com/snakeladder/factory/GameConfig.java:85-88 | only the dice strategy changes |
| SnakeLadderFactory.Builder.Build | src/com/snakeladder/factory/GameConfig.java:28-34 | the configuration carries the builder's fields, and from a valid builder its snakes go down and its ladders go up |
| SnakeLadderFactory.Starts | src/com/snakeladder/factory/GameFactory.java:152-160 | the start squares of the pairs, one per pair, in order |
| SnakeLadderFactory.FirstRepeatMeaning | src/com/snakeladder/factory/GameFactory.java:149-162 | the set-insertion scan finds nothing exactly when the starts are distinct and none was seen before; what it reports occurs twice or was seen before |
| SnakeLadderFactory.ValidationMeaning | src/com/snakeladder/factory/GameFactory.java:138-147 | a configuration passes exactly when it names a player, has at least 10 squares and no two snakes or ladders share a start; a reported overlap is a shared start |
| SnakeLadderFactory.ValidateNoOverlaps | src/com/snakeladder/factory/GameFactory.java:149-162 | the loop refuses the first start square already taken, snakes first, then ladders |
| SnakeLadderFactory.ValidateConfig | src/com/snakeladder/factory/GameFactory.java:138-147 | the checks run in order: players, board size, overlaps |
| SnakeLadderFactory.LaidBounds | src/com/snakeladder/factory/GameFactory.java:103-110 | laying the pairs fails exactly when one is out of addJump's bounds, and keeps the jumps within bounds |
| SnakeLadderFactory.LaidDistinct | src/com/snakeladder/factory/GameFactory.java:103-110 | with distinct starts every pair ends up on the board as given, and every other square keeps what it had |
| SnakeLadderFactory.AddAll | src/com/snakeladder/factory/GameFactory.java:103-105 | the addJump loop succeeds exactly when laying the pairs does, leaving the laid jumps, and stops at the first out-of-bounds pair |
| SnakeLadderFactory.BuildGame | src/com/snakeladder/factory/GameFactory.java:130-136 | a new game on the board with one player on square 0 per name, in order |
| SnakeLadderFactory.CreateCustomGame | src/com/snakeladder/factory/GameFactory.java:97-113 | a configuration that fails validation, or whose jumps are out of bounds, is refused with that error; otherwise a new game of the configured size holds exactly the laid snakes and ladders |
| SnakeLadderFactory.CustomBoard | src/com/snakeladder/factory/GameFactory.java:97-113 | on a custom board from a valid builder each snake's head holds that snake going down, each ladder's bottom holds that ladder going up, and no other square has a jump |
| SnakeLadderFactory.CreateTestGame | src/com/snakeladder/factory/GameFactory.java:119-126 | a 20-square board with the ladder 5 to 15 and the snake 18 to 3 |
| SnakeLadderFactory.CreateClassicGame | src/com/snakeladder/factory/GameFactory.java:29-47 | a 100-square board with the classic five snakes and five ladders and the normal die |
| SnakeLadderFactory.CreateEasyGame | src/com/snakeladder/factory/GameFactory.java:53-68 | a 100-square board with the easy two snakes and five ladders and the normal die |
| SnakeLadderFactory.CreateHardGame | src/com/snakeladder/factory/GameFactory.java:74-91 | a 100-square board with the hard seven snakes and two ladders and the normal die |
| SnakeLadderFactory.PresetsFit | src/com/snakeladder/factory/GameFactory.java:29-91 | no preset jump is out of bounds on 100 squares, so no preset throws, and each preset's ladders are exactly its upward jumps |
| SnakeLadderFactory.TestGameScenario | src/com/snakeladder/factory/GameFactory.java:119-126 | Alice and Bob on the test board: Bob may not open; rolls 5, 4, 6, 1, 3, 5 climb, move, overshoot, climb, slide and win for Bob; then Alice is told the game has ended |
| AtmCash.StandardChain | src/com/atm/ATM.java:21-25 | the machine's chain is the 2000 dispenser, then the 500, then the 100, then nothing, each note value positive |
| AtmCash.PassOn | src/com/atm/chain/CashDispenser.java:10-16 | the base dispense: the whole amount goes to the next dispenser, and at the end of the chain only a positive amount is reported; every line it yields is a positive number of positive notes or a positive leftover |
| AtmCash.Dispense | src/com/atm/chain/TwoThousandDispenser.java:9-18 | a note dispenser pays as many notes as fit and passes only a positive remainder on, or passes a smaller amount on whole; every line it yields is a positive number of positive notes or a positive leftover |
| AtmCash.Conservation | src/com/atm/chain/CashDispenser.java:10-16 | along any chain of positive note values what is paid plus what is reported left over equals the amount asked for, and every line reports a positive count or leftover |
| AtmCash.NothingForNothing | src/com/atm/chain/TwoThousandDispenser.java:9-18 | a chain asked for zero or a negative amount pays nothing and reports nothing |
| AtmCash.LeftoverStep | src/com/atm/chain/TwoThousandDispenser.java:10-16 | a dispenser whose note value is a multiple of the next unit leaves over for the rest of the chain what the rest would leave from the amount modulo that unit |
| AtmCash.StandardChainPays | src/com/atm/ATM.java:21-25 | the 2000/500/100 chain pays the amount rounded down to a hundred and reports the last two digits as left over |
| AtmCash.TwentySevenHundred | src/com/atm/ATMDemo.java:11-31 | 2700 is paid as one 2000 note, one 500 note and two 100 notes |
| AtmRules.Handle | src/com/atm/ATM.java:46-50 | each request goes to the current state's handler, and every state except Idle still holds a card afterwards |
| AtmRules.Fresh | src/com/atm/ATM.java:16-18 | a new machine is Idle, with no card required |
| AtmRules.HandleKeepsAuthorized | src/com/atm/state/HasCardState.java:13-21 | once past the PIN, the held card is one the bank knows, and every request keeps that so |
| AtmRules.GatesToWithdrawal | src/com/atm/state/SelectOptionState.java:18-25 | entering SelectOption needs a PIN that authenticates the held card; entering Withdrawal needs an operation that equalsIgnoreCase matches with "WITHDRAW" |
| AtmRules.MatchesCapital | src/com/atm/state/SelectOptionState.java:19 | under equalsIgnoreCase a character matches a capital ASCII letter exactly when it is that letter in either case or, for I alone, the dotless i or the dotted capital I |
| AtmRules.WithdrawSpellings | src/com/atm/state/SelectOptionState.java:19 | an operation selects a withdrawal exactly when it spells WITHDRAW letter by letter in either case, its I also written as ı or İ |
| AtmRules.TurkishIsSelectWithdraw | src/com/atm/state/SelectOptionState.java:19-24 | "wıthdraw" and "WİTHDRAW" select a withdrawal; "withdrawal" and "deposit" do not |
| AtmRules.MoneyMovesOnlyOnWithdraw | src/com/atm/state/WithdrawalState.java:24-38 | accounts change only on a withdrawal with enough balance: exactly the held card's account is debited by exactly the amount, the whole amount goes to the dispensers, and the machine returns to Idle with no card |
| AtmRules.WithdrawPaysAmount | src/com/atm/state/WithdrawalState.java:30-31 | a withdrawal that pays out hands out in notes and reported leftover exactly the amount debited |
| AtmRules.IdleIgnoresCard | src/com/atm/state/IdleState.java:14-32 | an Idle machine answers every request except insertCard the same way whatever card it still holds |
| AtmRules.RefusedRequestsChangeNothing | src/com/atm/state/HasCardState.java:7-31 | every request except a paying withdrawal leaves the accounts as they are, and a request the state does not accept changes nothing |
| AtmRules.NegativeWithdrawalCredits | src/com/atm/state/WithdrawalState.java:27-31 | withdraw(-x) passes the balance check and, with `debit` taken as a plain subtraction, credits x to the account while nothing is dispensed |
| AtmRules.DemoScenarios | src/com/atm/ATMDemo.java:11-31 | the demo's three sessions: 2700 is paid as 1x2000, 1x500 and 2x100; a wrong PIN returns to Idle; 20000 is refused and 7300 remains |
| Atm.BankService.constructor | src/com/atm/service/BankService.java:9-10 | a new bank has no accounts and no cards |
| Atm.BankService.AddAccount | src/com/atm/service/BankService.java:12-14 | the account is filed under its number, replacing any earlier one |
| Atm.BankService.AddCard | src/com/atm/service/BankService.java:16-18 | the card is filed under its number, replacing any earlier one |
| Atm.BankService.AuthenticateUser | src/com/atm/service/BankService.java:20-23 | true exactly when a card is filed under the number and its PIN is the one entered |
| Atm.BankService.GetAccount | src/com/atm/service/BankService.java:25-28 | the account filed under the card number, or None when there is none |
| Atm.AuthenticateAfterAddCard | src/com/atm/service/BankService.java:16-23 | after addCard, that card's number authenticates with its own PIN and with no other |
| Atm.ATM.constructor | src/com/atm/ATM.java:16-26 | the machine starts Idle with no card, an empty bank and the 2000, 500, 100 chain |
| Atm.ATM.Become | src/com/atm/ATM.java:35-43 | setState and setCurrentCard replace the state and the card and nothing else |
| Atm.ATM.InsertCard | src/com/atm/ATM.java:46 | the machine's new state and card are those the state rules give for insertCard |
| Atm.ATM.EnterPin | src/com/atm/ATM.java:47 | the new state and card are those the state rules give for enterPin, checked against the bank |
| Atm.ATM.SelectOperation | src/com/atm/ATM.java:48 | the new state and card are those the state rules give for selectOperation |
| Atm.ATM.Withdraw | src/com/atm/ATM.java:49 | the new state, card and accounts are those the state rules give for withdraw, and the notes dispensed are the chain's answer |
| Atm.ATM.Exit | src/com/atm/ATM.java:50 | the new state and card are those the state rules give for exit |
| ParkingSimple.SpotTypesMatchVehicleTypes | src/com/parkinglot/simple/ParkingLot.java:135-142 | getSpotTypeForVehicle sends different vehicle types to different spot types, and every spot type serves some vehicle type |
| ParkingSimple.Decimal | src/com/parkinglot/simple/ParkingLot.java:87 | the decimal text of the counter is never empty, and a number of two or more digits is written with at least two characters |
| ParkingSimple.DecimalInjective | src/com/parkinglot/simple/ParkingLot.java:87 | different counter values are written as different decimal strings |
| ParkingSimple.TicketNamesDistinct | src/com/parkinglot/simple/ParkingLot.java:87 | ticket ids "T-" + counter are equal exactly when the counter values are, so every ticket the lot issues has a new id |
| ParkingSimple.FirstFree | src/com/parkinglot/simple/ParkingLot.java:147-156 | findAvailableSpot's search: the answer is an empty place with every place before it taken, and there is no answer exactly when every place is taken |
| ParkingSimple.FirstFreeAt | src/com/parkinglot/simple/ParkingLot.java:147-156 | an empty place whose predecessors are all taken is the one the search returns |
| ParkingSimple.CountFree | src/com/parkinglot/simple/ParkingLot.java:160-166 | the count of empty places is at most the number of places, and is zero exactly when the search finds none |
| ParkingSimple.CountFreeAfterPark | src/com/parkinglot/simple/ParkingLot.java:80 | parking in an empty place lowers the count of available spots by one |
| ParkingSimple.CountFreeAfterUnpark | src/com/parkinglot/simple/ParkingLot.java:120 | emptying a taken place raises the count of available spots by one |
| ParkingSimple.ParkingSpot.constructor | src/com/parkinglot/simple/ParkingSpot.java:13-17 | a new spot has its id and type and no vehicle |
| ParkingSimple.ParkingSpot.Park | src/com/parkinglot/simple/ParkingSpot.java:23-29 | park succeeds exactly on an empty spot, which then holds the vehicle; a taken spot keeps its vehicle |
| ParkingSimple.ParkingSpot.Unpark | src/com/parkinglot/simple/ParkingSpot.java:34-36 | after unpark the spot holds no vehicle |
| ParkingSimple.ParkingLot.constructor | src/com/parkinglot/simple/ParkingLot.java:27-41 | a new lot has an empty spot list for each of SMALL, MEDIUM and LARGE, no active ticket and the counter at 0 |
| ParkingSimple.ParkingLot.AddSpot | src/com/parkinglot/simple/ParkingLot.java:57-59 | the spot is appended to its type's list, nothing else changes, and the lot stays consistent |
| ParkingSimple.ParkingLot.FindAvailableSpot | src/com/parkinglot/simple/ParkingLot.java:147-156 | the answer is the first spot of the type's list that holds no vehicle, or none when all are taken |
| ParkingSimple.ParkingLot.GetAvailableSpots | src/com/parkinglot/simple/ParkingLot.java:160-166 | the number of spots of the type that hold no vehicle |
| ParkingSimple.ParkingLot.GetTotalSpots | src/com/parkinglot/simple/ParkingLot.java:168-174 | the sum of the lengths of the three spot lists |
| ParkingSimple.ParkingLot.ParkVehicle | src/com/parkinglot/simple/ParkingLot.java:67-95 | with no free spot of the vehicle's type nothing changes and no ticket is issued; otherwise the first free spot takes the vehicle, the counter goes up by one, and a ticket "T-" + counter naming the vehicle and spot is filed under the plate; no other spot changes and every active ticket's spot still holds its vehicle |
| ParkingSimple.ParkingLot.UnparkVehicle | src/com/parkinglot/simple/ParkingLot.java:101-128 | (corrected; see Findings) a ticket is accepted exactly when one is filed under its plate with the same id; the filed ticket's spot, not the presented one's, is then emptied and the plate unfiled, no other spot changes, and the lot stays consistent; a refused ticket changes nothing |
| ParkingSimple.ParkingLot.UnparkVehicleAsWritten | src/com/parkinglot/simple/ParkingLot.java:101-128 | the source's unpark: the same acceptance test, but the spot emptied is the one named on the ticket presented, so consistency is kept only when that is the filed ticket's spot |
| ParkingSimple.TwoMediumSpots | src/com/parkinglot/simple/SimpleParkingDemo.java:18-19 | a new lot with two medium spots lists them in order, all empty |
| ParkingSimple.TwoCarsParked | src/com/parkinglot/simple/SimpleParkingDemo.java:35-36 | two cars parked one after another get tickets T-1 and T-2 for the first and second medium spots |
| ParkingSimple.ForgedTicketFreesAnotherSpot | src/com/parkinglot/simple/ParkingLot.java:108-123 | a copy of car 1's ticket naming car 2's spot is accepted by the source's unpark, which empties car 2's spot while car 2's ticket stays active |
| ParkingSimple.ForgedTicketReleasesOwnSpot | src/com/parkinglot/simple/ParkingLot.java:108-123 | the same copy against the corrected unpark frees car 1's own spot, leaves car 2 parked and keeps the lot consistent |
| ParkingSimple.OneLargeSpot | src/com/parkinglot/simple/SimpleParkingDemo.java:20 | a new lot with its one large spot, empty |
| ParkingSimple.CapacityDemo | src/com/parkinglot/simple/SimpleParkingDemo.java:42-69 | with one large spot a second truck is refused while the first is parked, gets ticket T-2 once the first has left, and a ticket already used is refused |
| ParkingFloors.ParkingSpot.constructor | src/com/parkinglot/model/ParkingSpot.java:18-22 | a new spot is free and holds no vehicle |
| ParkingFloors.ParkingSpot.AssignVehicle | src/com/parkinglot/model/ParkingSpot.java:29-36 | succeeds exactly on a free spot, which then holds the vehicle and is taken; a taken spot is unchanged; the free flag keeps agreeing with the vehicle |
| ParkingFloors.ParkingSpot.RemoveVehicle | src/com/parkinglot/model/ParkingSpot.java:38-45 | succeeds exactly on a taken spot, which then is free and empty; a free spot is unchanged |
| ParkingFloors.ParkingSpot.IsFree | src/com/parkinglot/model/ParkingSpot.java:55-57 | on a consistent spot, true exactly when no vehicle is in it |
| ParkingFloors.ParkingFloor.constructor | src/com/parkinglot/model/ParkingFloor.java:16-25 | a new floor has an empty queue for every spot type and nothing occupied |
| ParkingFloors.ParkingFloor.AddSpot | src/com/parkinglot/model/ParkingFloor.java:27-29 | the spot joins the tail of its type's queue; when its id is new on the floor the floor stays consistent |
| ParkingFloors.ParkingFloor.GetSpot | src/com/parkinglot/model/ParkingFloor.java:35-48 | with an empty queue the answer is none and nothing changes; otherwise the queue's head is removed, filed as occupied under its id and returned, and the floor stays consistent |
| ParkingFloors.ParkingFloor.ReturnSpot | src/com/parkinglot/model/ParkingFloor.java:50-55 | a spot filed as occupied is unfiled, emptied and queued at the tail of its type; any other spot leaves floor and spot unchanged |
| ParkingFloors.AddKeepsConsistent | src/com/parkinglot/model/ParkingFloor.java:27-29 | queuing a spot whose id is new on the floor keeps the floor's bookkeeping consistent |
| ParkingFloors.TakeKeepsConsistent | src/com/parkinglot/model/ParkingFloor.java:35-48 | taking a queue's head and filing it as occupied keeps the bookkeeping consistent |
| ParkingFloors.ReturnKeepsConsistent | src/com/parkinglot/model/ParkingFloor.java:50-55 | unfiling an occupied id and queuing its spot keeps the bookkeeping consistent |
| ParkingFloors.FreeAndOccupiedApart | src/com/parkinglot/model/ParkingFloor.java:9-14 | on a consistent floor no spot is both queued as free and filed as occupied |
| ParkingFloors.HandOutAndReturn | src/com/parkinglot/model/ParkingFloor.java:35-55 | a floor's only compact spot, handed out and returned, is queued again with nothing occupied; a second request while it is out gets none, and a second return changes nothing |
| NearestFirst.SpotTypesForVehicles | src/com/parkinglot/strategy/NearestFirstStrategy.java:23-31 | different vehicle types need different spot types and no vehicle type is sent to a handicapped spot |
| NearestFirst.FindSpot | src/com/parkinglot/strategy/NearestFirstStrategy.java:11-21 | the answer comes from the first floor, in list order, with a free spot of the vehicle's type, and is that floor's queue head; there is none exactly when no floor has one; only the serving floor changes |
| NearestFirst.TwoFloors | src/com/parkinglot/model/ParkingFloor.java:16-29 | a floor with no spots and a floor with compact spots C1 then C2 queued |
| NearestFirst.SecondFloorServes | src/com/parkinglot/strategy/NearestFirstStrategy.java:11-21 | with the first floor empty, a car gets C1 from the second floor, which keeps C2 queued and stays consistent |
| CoffeeInventory.InitialStock | src/com/coffeemachine/service/Inventory.java:9-15 | a new inventory knows exactly coffee beans, milk, sugar and water, 100 of each |
| CoffeeInventory.Consumed | src/com/coffeemachine/service/Inventory.java:26-30 | consuming leaves the inventory knowing exactly the items it knew before |
| CoffeeInventory.ConsumedCounts | src/com/coffeemachine/service/Inventory.java:26-30 | each item's count drops by the number of times it is listed |
| CoffeeInventory.CheckedConsumeStaysNonNegative | src/com/coffeemachine/state/IdleState.java:17-22 | a list without repeats that passes checkIngredients leaves no count negative once consumed |
| CoffeeInventory.DoubleMilkOverdraws | src/com/coffeemachine/service/Inventory.java:17-30 | the check is per item, not per occurrence: with one milk left a double-milk list passes the check and consuming it leaves -1 |
| CoffeeInventory.EspressoFromNew | src/com/coffeemachine/model/Espresso.java:15-17 | an espresso from a new inventory takes one coffee bean and one water |
| CoffeeInventory.LatteTakesOneEach | src/com/coffeemachine/decorator/Sugar.java:21-25 | espresso with milk and sugar added takes one of each of the four ingredients |
| CoffeeInventory.EspressoThenLatte | src/com/coffeemachine/CoffeeMachineDemo.java:12-28 | an espresso then a latte leave 98 coffee beans, 98 water, 99 milk and 99 sugar |
| CoffeeInventory.MilkDrained | src/com/coffeemachine/CoffeeMachineDemo.java:30-33 | after a refill of -1000 milk, an espresso with milk fails the check while a plain espresso still passes |
| CoffeeInventory.Inventory.constructor | src/com/coffeemachine/service/Inventory.java:9-15 | a new inventory holds the initial stock |
| CoffeeInventory.Inventory.CheckIngredients | src/com/coffeemachine/service/Inventory.java:17-24 | true exactly when every listed item has a positive count, an unknown item counting 0 |
| CoffeeInventory.Inventory.Consume | src/com/coffeemachine/service/Inventory.java:26-30 | the counts become those after taking one per listed occurrence, with no check that they stay positive |
| CoffeeInventory.Inventory.Refill | src/com/coffeemachine/service/Inventory.java:32-34 | the amount, which may be negative, is added to the item's count, an unknown item counting from 0 |

## Left out

- Threads and blocking: the elevator `run()` loops with `wait`/`notifyAll`/`Thread.sleep`, the thread-starting elevator controllers and the snake console loop are not modelled; one tick is one method call. `synchronized` has no counterpart in a sequential model.
- Console output: every `System.out` message is omitted. Where a message is the only result (the ATM notices, the snakes-and-ladders replies), the model returns a structured value in its place, not the text.
- Java `int` overflow: integers are unbounded, so wrap-around of counters (`ticketCounter`, `wordCount`, scores, move counts) is not modelled.
- Floating point: parking fees, `Ticket.getHoursParked`, the pricing strategies and the coffee machine's money-based states and beverage costs are left out. The parking model's unpark returns whether the ticket was accepted instead of the fee.
- Randomness: dice values, food cells and the first food cell are parameters or a finite stream of draws.
- SnakeRules.FirstFree, SnakeSimple.SnakeGame.constructor, SnakeSimple.SnakeGame.GenerateFood, SnakeSimple.SnakeGame.Move, SnakeLayered.Board.GenerateFoodAvoiding, SnakeLayered.SnakeGame.constructor, SnakeLayered.SnakeGame.Move: food placement retries random draws until one hits a free cell; the model requires that the given stream contains such a cell, so a board with no free cell (where the source loops for ever) is excluded.
- Hash iteration order: dictionary searches and the autocomplete walk visit children in an unspecified order, so their results are specified as sets, or as lists whose order is not fixed. `findNearestRequest` returns some request at minimal distance rather than the one hash order would give.
- ElevatorV2Model.Elevator.FindNearestRequest, ElevatorV2Model.Elevator.Step, ElevatorV2Controller.ElevatorController.Step: require every distance from the car to a request to be below `Integer.MAX_VALUE`, the sentinel the source's minimum search starts from.
- ElevatorV2Controller.ElevatorController.RequestElevator: a valid hall call requires some car the dispatcher can select; with no car the source dereferences null.
- The v2 FCFS strategy (which always returns the first car) and the two thread-based elevator controllers are not part of this model.
- ChessBoard.Board.IsPathClear: requires the two squares to share a row, column or diagonal; every caller (bishop, rook, queen) checks that first, and on unaligned squares the source's walk would not terminate.
- Chess printing, the `Player` class and `ChessDemo` are left out. The colour, piece-type and game-status enums are defined from their uses. Castling, en passant and promotion are absent from the source as well.
- Snakes and ladders: `Jump` and `Player` are defined from their uses, and a player starts at square 0. `GameConfig.build()` hands the builder's own lists to the configuration; that aliasing is not modelled, because the configuration is a value.
- ATM: the singleton `getInstance` is left out, and `Account` is reduced to an integer balance.
- AtmRules.EqualsIgnoreCase: `Character.toUpperCase` and `toLowerCase` are modelled on ASCII letters, the dotless ı (U+0131) and the dotted İ (U+0130) only; other scripts' case pairs are not folded. The model only ever compares with "WITHDRAW", and apart from those two no character's simple case mapping gives one of its letters, so the withdraw gate is Java's on every input.
- AtmRules.NegativeWithdrawalCredits: `Account` is not part of this model; `debit` is taken to subtract the amount from the balance with no check of its own.
- Parking, single level:
  - the singleton `getInstance`/`resetInstance` and `hourlyRates` are left out;
  - the "spot was taken" branch of `parkVehicle` cannot be reached sequentially, because the spot was just found free; the model asserts it away;
  - a null vehicle or spot is not modelled;
  - the `Vehicle`, `SpotType` and `VehicleType` types are defined from their uses.
- Parking, rest: the service facade, the gates and the spot subclasses (`CompactSpot`, …) are left out, because their signatures do not match their callers.
- ParkingSimple.CapacityDemo: models only the capacity part of the single-level demo; the demo's full sequence of parks and unparks is not reproduced as one scenario.
- SearchAutocompleteService.SearchAutocomplete.constructor: requires at least as many counts as phrases; with fewer, the source's `counts[i]` throws ArrayIndexOutOfBoundsException.
- CoffeeInventory.Inventory.Consume: requires every listed item to be known to the inventory; the source fails on unboxing a missing count.
- Coffee: the beverage decorators are reduced to their ingredient lists. Concurrent map updates are not modelled.
- Tic-tac-toe: the demo's draw game and its 4×4 row win are not reproduced as scenarios; the draw and win rules themselves are stated by `TicTacToeSimple.Game.MakeMove`. The `service.Game`, bot and memento classes depend on a board class that is not part of this model.
- Snake: the edge-case test that sets the body fields directly to force a tail chase is not reproduced; the tail-chasing rule is stated by `SnakeRules` instead.
- Dictionary and autocomplete tries are values held in a class field, not linked node objects, so aliasing between nodes is not modelled. `toLowerCase` is modelled on ASCII letters only; other characters are left as they are.

## Findings

| source | as written | input that shows it | evidently intended | confidence | as-written member | corrected member |
|---|---|---|---|---|---|---|
| src/com/dictionary/service/Dictionary.java:254-255 | `deleteHelper` clears the end-of-word flag and then calls `setMeaning(null)`, which sets the flag again, so a deleted word that is a prefix of a stored word stays in the dictionary while `wordCount` drops | add "apple" and "app", delete "app": `containsWord("app")` is still true | the deleted word is no longer stored and the other words are unaffected | medium; not executed | DictionaryTrie.DeleteAsWritten, DictionaryTrie.DeleteAsWrittenKeepsPrefixWord, DictionaryService.AppSurvivesDeleteAsWritten | DictionaryTrie.Delete, DictionaryTrie.DeleteWords |
| src/com/snake/simple/SnakeGame.java:80-86 | on a move without food (here and in `model/Snake.java`) the new head is added to the body set before the old tail is removed, so when the head moves onto the tail cell that cell leaves the set although the head is on it | a snake moving into the cell its tail is vacating: afterwards the head's cell is missing from `bodySet`, and a later move into that cell is not detected as a collision | the body set equals the set of body cells after every move | medium; not executed | SnakeRules.SlideSetAsWritten, SnakeRules.TailChaseLosesHead, SnakeRules.NeckCollisionMissed | SnakeRules.SlideSet, SnakeRules.SlideTracksBody |
| src/com/parkinglot/simple/ParkingLot.java:108-123 | `unparkVehicle` checks only the plate and ticket id against the active ticket, then empties the spot named on the ticket presented | cars CAR-001 in M1 (T-1) and CAR-002 in M2 (T-2); present a ticket with id T-1, vehicle CAR-001 and spot M2: M2 is emptied while CAR-002's ticket stays active | the spot of the active ticket filed under the plate is released | medium; not executed | ParkingSimple.ParkingLot.UnparkVehicleAsWritten, ParkingSimple.ForgedTicketFreesAnotherSpot | ParkingSimple.ParkingLot.UnparkVehicle, ParkingSimple.ForgedTicketReleasesOwnSpot |
