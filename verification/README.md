# Detective Quest: a verified model

Detective Quest is a console deduction game in C (`algoritmos_avancados.c`).
The player walks a fixed binary tree of rooms (`Sala`). Each room may hide a
clue. Every clue found goes into a binary search tree of strings (`PistaNode`),
ordered by `strcmp`, with duplicates suppressed. A chained hash table of ten
buckets (`tabelaHash`, entries `HashItem`) maps each clue to the suspect it
implicates. When the player leaves, they accuse a suspect. The accusation's
first letter is capitalised. The clue tree is walked in order and each clue is
looked up in the table. The accused is guilty when at least two collected
clues point at them.

This project models that core in Dafny and proves its properties:

- `cstring.dfy` (module `CString`): strings as byte sequences without the NUL
  terminator. `Strcmp` is the sign of C's `strcmp`, comparing unsigned bytes as
  section 7.24.4 of ISO/IEC 9899:2011 requires. It is proved to be a strict
  total order equal to the lexicographic order.
- `clue_index.dfy` (module `ClueIndex`): the clue BST as a datatype. `Insert`
  models `inserirPista` and `InOrder` models the walk of `exibirPistas`.
- `suspect_index.dfy` (module `SuspectIndex`): `hashFunction` is a loop
  with the source's shifts in 64-bit unsigned arithmetic. `SuspectTable` is a
  class holding an `array` of ten chains, with `Insert` (`inserirNaHash`) and
  `Find` (`encontrarSuspeito`). A ghost `History` records every insertion.
  `Find` is proved to return the suspect of the most recent insertion of the
  clue, or `None` when the clue was never inserted.
- `mansion.dfy` (module `Mansion`): rooms, `obterPistaDaSala`, the
  navigation step, and `Explore` (`explorarSalas`). `Explore` is a loop over a
  sequence of menu keys that stands for the console input.
- `verdict.dfy` (module `Verdict`): `Capitalise`, `CountBySuspect`
  (`contarPistasPorSuspeito`) and `Judge` (`verificarSuspeitoFinal` without its
  output).
- `scenarios.dfy` (module `Scenarios`): the mansion and the clue/suspect pairs
  that `main` sets up, `Play` (setup, exploration and judgment in one), and
  concrete walkthroughs.

Fixed platform choices:

- `unsigned long` is 64 bits wide (LP64).
- `char` is signed, as on x86-64. So `int c = *pista` is negative for bytes of
  0x80 and above. This matters for "Pá com terra molhada", whose `á` is the
  UTF-8 bytes 0xC3 0xA1.
- `strcmp` compares bytes as unsigned, as the C standard requires.

Where the code and its comments disagree, or the code does less than it might,
the model follows the code:

- The comment on `hashFunction` (line 116) calls it a sum of character codes.
  The code computes `hash * 65599 + c` modulo 2^64. `NotByteSum` shows the two
  give different buckets for "ab".
- `inserirNaHash` does not check for duplicates. So the model keeps every
  inserted entry, and a lookup finds the newest one.
- Every clue found is inserted into the clue tree. The comparison at line 201
  is computed but never used, so it has no effect.

## Model

| member | source | states |
|---|---|---|
| `CString.Strcmp` | algoritmos_avancados.c:84 | strcmp's sign lies in -1..1 and is 0 exactly when the two strings are equal |
| `CString.StrcmpAntisymmetric` | algoritmos_avancados.c:84-97 | swapping the operands negates the comparison, so `cmp < 0` and `cmp > 0` are mirror cases |
| `CString.LessTransitive` | algoritmos_avancados.c:84-97 | "compares below" is transitive, which makes the BST order a strict order |
| `CString.StrcmpIsLexicographic` | algoritmos_avancados.c:84 | strcmp < 0 holds exactly when the first string is a proper prefix of the second or is smaller at the first differing unsigned byte |
| `ClueIndex.Insert` | algoritmos_avancados.c:72-99 | the new key set is the old one plus the clue; a BST stays a BST; inserting a clue already present returns the tree unchanged; inserting a new clue adds exactly one node |
| `ClueIndex.InOrder` | algoritmos_avancados.c:105-111 | the walk exibirPistas prints lists every stored clue and nothing else, one entry per node |
| `ClueIndex.InOrderSorted` | algoritmos_avancados.c:105-111 | the in-order walk of a BST lists exactly its keys, strictly ascending by strcmp, one entry per node |
| `ClueIndex.NoDuplicateKeys` | algoritmos_avancados.c:86-89 | a BST has as many distinct keys as nodes, so no key is stored twice |
| `ClueIndex.InsertAll` | algoritmos_avancados.c:206 | inserting clues one after another yields the old keys plus those clues, and keeps a BST a BST |
| `ClueIndex.InsertAllAppend` | algoritmos_avancados.c:206 | inserting two batches of clues in turn is the same as inserting them as one batch |
| `ClueIndex.CollectedTreeSorted` | algoritmos_avancados.c:72-111 | a tree built from empty by any sequence of insertions is a BST whose in-order walk lists exactly the inserted clues, strictly ascending, with no duplicates |
| `SuspectIndex.Sdbm` | algoritmos_avancados.c:119-122 | the accumulator of hashFunction always fits in an `unsigned long` |
| `SuspectIndex.Hash` | algoritmos_avancados.c:123 | the bucket index is always in 0..HASH_SIZE-1 |
| `SuspectIndex.ShiftStep` | algoritmos_avancados.c:122 | one step `c + (hash<<6) + (hash<<16) - hash` in 64-bit unsigned arithmetic equals `hash * 65599 + c` modulo 2^64 |
| `SuspectIndex.HashFunction` | algoritmos_avancados.c:118-124 | the shift loop returns the 65599-accumulation of the bytes modulo HASH_SIZE, a bucket in 0..9 that depends only on the bytes |
| `SuspectIndex.NotByteSum` | algoritmos_avancados.c:116-123 | the bucket is not the sum of the character codes that the comment claims: "ab" differs |
| `SuspectIndex.ChainEntriesHashThere` | algoritmos_avancados.c:137-145 | every entry of bucket i was inserted and its clue hashes to i |
| `SuspectIndex.ChainFindIsLatest` | algoritmos_avancados.c:152-164 | scanning a clue's own bucket from the head finds the suspect of its most recent insertion |
| `SuspectIndex.LatestNoneIffAbsent` | algoritmos_avancados.c:163 | lookup finds nothing exactly when the clue was never inserted, and what it finds is a pair that was inserted |
| `SuspectIndex.LatestOfUniqueClues` | algoritmos_avancados.c:152-164 | when no clue was inserted twice, every inserted clue looks up to its own suspect |
| `SuspectIndex.SuspectTable.constructor` | algoritmos_avancados.c:356-358 | the table starts with ten empty buckets and no insertions |
| `SuspectIndex.SuspectTable.Insert` | algoritmos_avancados.c:129-146 | the pair is pushed onto the head of bucket hashFunction(clue); all other buckets are unchanged; afterwards the clue looks up to the new suspect, which shadows older ones, and every other clue looks up as before |
| `SuspectIndex.SuspectTable.Find` | algoritmos_avancados.c:152-164 | the table is not changed; the result is the suspect of the clue's most recent insertion, or None exactly when the clue was never inserted |
| `Mansion.ClueForRoom` | algoritmos_avancados.c:172-180 | a room yields a clue exactly when it is one of the six named rooms (the hall is not among them), and the clue is one of the six clues |
| `Mansion.ClueForRoomInjective` | algoritmos_avancados.c:172-180 | each clue is hidden in exactly one room, and the entrance hall hides none |
| `Mansion.Step` | algoritmos_avancados.c:225-242 | 's' exits and nothing else does; 'e' or 'd' moves to that neighbour when it exists; the room changes only in those two cases, so a missing neighbour or any other key leaves it unchanged |
| `Mansion.Visits` | algoritmos_avancados.c:193-243 | the walk starts in the start room and enters one room per pass; it uses up every key, entering one room more than there are keys, exactly when no key is 's' |
| `Mansion.VisitsStayInMansion` | algoritmos_avancados.c:225-236 | every room the walk enters lies below the starting room, and each is the previous room or one of its two neighbours |
| `Mansion.CollectClue` | algoritmos_avancados.c:198-210 | the clue tree gains the room's clue when the room has one and is unchanged otherwise |
| `Mansion.Navigate` | algoritmos_avancados.c:225-242 | the branch chain leaves exactly on 's'; 'e' and 'd' move to that neighbour when it exists; the room changes in no other case |
| `Mansion.ExploredCollectsWalk` | algoritmos_avancados.c:193-243 | the tree the loop builds pass by pass is the old tree with the clues of the rooms the walk enters inserted in order |
| `Mansion.Explore` | algoritmos_avancados.c:186-244 | the clue tree ends as the old tree with the clue of every room entered inserted in order; the loop exits by choice exactly when the input holds an 's'; a NULL start room changes nothing |
| `Verdict.Capitalise` | algoritmos_avancados.c:293-295 | the length and every byte after the first are unchanged; the name changes exactly when its first byte is in 'a'..'z', which then becomes its capital ('A'..'Z', 32 lower); the result never starts with a lower-case letter |
| `Verdict.CapitaliseIdempotent` | algoritmos_avancados.c:293-295 | capitalising twice is the same as capitalising once |
| `Verdict.MatchesAppend` | algoritmos_avancados.c:253-262 | the tally over two sequences of clues is the sum of the two tallies |
| `Verdict.TallyCountsKeys` | algoritmos_avancados.c:249-263 | on a BST, the in-order tally counts exactly the distinct stored clues whose suspect is the accused, so it is at most the node count |
| `Verdict.CountBySuspect` | algoritmos_avancados.c:249-263 | the counter grows by exactly the number of clues in the tree's in-order walk whose looked-up suspect equals the accused |
| `Verdict.Judge` | algoritmos_avancados.c:269-314 | no accusation is judged exactly when no clue was collected; otherwise the accused is the capitalised input, the count is the number of collected clues pointing at them (at most the node count), and the ruling is guilty exactly when the count is at least 2 |
| `Scenarios.SetupCluesUnique` | algoritmos_avancados.c:373-382 | main never inserts the same clue twice |
| `Scenarios.SetupLookups` | algoritmos_avancados.c:373-382 | each of the six clues looks up to the suspect main pairs it with, and a name never inserted looks up to nothing |
| `Scenarios.EveryRoomClueHasSuspect` | algoritmos_avancados.c:172-180 | every clue a room can yield has a suspect in main's table |
| `Scenarios.SetupSuspects` | algoritmos_avancados.c:355-382 | main's empty table followed by its six inserts gives a valid table whose insertions are exactly main's six pairs |
| `Scenarios.Play` | algoritmos_avancados.c:354-392 | a whole game whose keys hold an 's': there is no evidence exactly when the walk passes no room with a clue; otherwise the count is the number of distinct clues found that point at the capitalised accusation, and the ruling is guilty exactly when it is at least 2 |
| `Scenarios.LibraryThenStudyWalk` | algoritmos_avancados.c:361-369 | the walk right, left, leave enters the hall, Biblioteca and Escritorio and finds "Carta rasgada" then "Chave mestra" |
| `Scenarios.ButlerCluesStored` | algoritmos_avancados.c:72-111 | those two clues are listed by the in-order walk in the order they were found |
| `Scenarios.ButlerCluesAccuse` | algoritmos_avancados.c:373-374 | both of those clues point at Mordomo |
| `Scenarios.CapitaliseMordomo` | algoritmos_avancados.c:293-295 | "mordomo" is capitalised to "Mordomo" |
| `Scenarios.PlayLibraryThenStudy` | algoritmos_avancados.c:301-308 | that walk followed by the accusation "mordomo" rules Mordomo guilty on 2 clues |
| `Scenarios.HallOnly` | algoritmos_avancados.c:198-209 | leaving from the hall at once collects no clue |
| `Scenarios.PlayHallOnly` | algoritmos_avancados.c:274-277 | leaving from the hall at once ends in no accusation, whatever is typed |
| `Scenarios.LivingThenDining` | algoritmos_avancados.c:362-378 | the walk left, right, leave finds "Pá com terra molhada" and "Agenda misteriosa", of which one points at Governanta |
| `Scenarios.PlayOneHousekeeperClue` | algoritmos_avancados.c:306-311 | that walk followed by the accusation "Governanta" rules Governanta innocent on 1 clue, below the threshold |
| `Scenarios.BlockedInKitchen` | algoritmos_avancados.c:225-230 | pressing 'e' in the kitchen, which has no left neighbour, leaves the player in the kitchen, and its clue is found again |
| `Scenarios.KitchenClueKeptOnce` | algoritmos_avancados.c:87-89 | the kitchen clue found twice is stored once, and the walk lists "Frasco de veneno" before "Pá com terra molhada" |

Members without a row are helpers whose properties other rows state:

- `Verdict.Rule` applies the `>= 2` test of line 306. `Verdict.Judge` states it: guilty exactly when the count is at least 2.
- `Scenarios.NewRoom` (`criarSala`, lines 48-64) and `Scenarios.MansionMap` (the tree built at lines 361-369) are data. The walkthrough lemmas check the rooms they contain.
- `ClueIndex.Keys`, `ClueIndex.Size`, `Mansion.CluesAlong`, `Mansion.RoomClue` and `Mansion.Explored` are specification functions. `Mansion.ExplorePass`, `Mansion.WithinTransitive` and the arithmetic and set lemmas in `SuspectIndex` and `Verdict` are proof steps.

## Left out

- Console output is left out: every `printf`, the banner, the menu, the clue listing and the verdict texts. `exibirPistas` is modelled by the sequence it prints (`ClueIndex.InOrder`).
- Console input is abstracted. `scanf(" %c")` and the buffer flush become a sequence of keys (`Mansion.Key`, any byte including NUL, which like any other unknown key is an invalid option). The accusation read by `scanf("%49s")` becomes a byte string, without the 49-byte truncation.
- Mansion.Explore: when the key sequence runs out, the model stops and reports that no 's' was read. At end of input the C program never leaves the loop: `scanf(" %c")` fails and the flush at line 223 loops forever on EOF. So `Scenarios.Play` requires an 's' among the keys, as the judgment at line 392 is reached only after one.
- Memory release (`freeArvoreSalas`, `freeArvorePistas`, `freeTabelaHash`) is left out: Dafny manages memory itself.
- Allocation failure and its `exit(1)` in `criarSala` are left out. So is the unchecked `malloc` in `inserirPista` and `inserirNaHash`.
- `inserirPista` rebinds `raiz->esq` and `raiz->dir` in place. The model returns a new tree value instead. The tree is owned by one global pointer, so no aliasing is lost.
- The chains of `tabelaHash` are Dafny sequences, not linked `HashItem` nodes. Pushing at the head and scanning from the head are kept; node identity is not.
- The global `arvorePistas` is passed into and returned from `Explore`, and passed to `Judge`. The global `tabelaHash` is a `SuspectTable` object.
- `contarPistasPorSuspeito` increments `*contador` through a pointer. The model passes the counter in and returns it.
- `main`'s setup is modelled by `SetupSuspects`, `MansionMap` and `Play`. Its console banner and cleanup are left out.
- `criarSala` is `Scenarios.NewRoom`. Its copy of the name into fresh memory is not modelled.
- The C `int` counter is not bounded: it counts at most the clue tree's nodes, so it cannot overflow.
- `hashFunction` is modelled for one platform: signed `char` and 64-bit `unsigned long`. On other platforms the bucket numbers may differ. The properties proved about the table do not depend on which bucket a clue gets.
