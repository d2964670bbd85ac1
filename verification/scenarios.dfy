/**
 * The game as main sets it up: the seven-room mansion, the six clue/suspect
 * pairs, one exploration and one judgment; and walkthroughs of it.
 */
module Scenarios {
  import opened CString
  import opened ClueIndex
  import opened SuspectIndex
  import opened Mansion
  import opened Verdict

  /** "Mordomo" */
  const Mordomo: CStr := [77, 111, 114, 100, 111, 109, 111]
  /** "Governanta" */
  const Governanta: CStr := [71, 111, 118, 101, 114, 110, 97, 110, 116, 97]
  /** "Jardineiro" */
  const Jardineiro: CStr := [74, 97, 114, 100, 105, 110, 101, 105, 114, 111]

  /** The six pairs main inserts, in its order. */
  const SetupClues: seq<HashItem> := [
    HashItem(CartaRasgada, Mordomo),
    HashItem(ChaveMestra, Mordomo),
    HashItem(FrascoDeVeneno, Governanta),
    HashItem(AgendaMisteriosa, Governanta),
    HashItem(BotinaSujaDeTerra, Jardineiro),
    HashItem(PaComTerraMolhada, Jardineiro)
  ]

  /** criarSala: a room with the given name and no neighbours yet. */
  function NewRoom(nome: CStr): Room {
    Room(nome, None, None)
  }

  /** The mansion main builds: the hall, two rooms below it, two below each of those. */
  function MansionMap(): Room {
    Room(HallDeEntrada,
      Some(Room(SalaDeEstar, Some(NewRoom(Cozinha)), Some(NewRoom(SalaDeJantar)))),
      Some(Room(Biblioteca, Some(NewRoom(Escritorio)), Some(NewRoom(JardimDeInverno)))))
  }

  /** No clue appears twice among the setup pairs. */
  lemma SetupCluesUnique()
    ensures forall i, j | 0 <= i < j < |SetupClues| :: SetupClues[i].clue != SetupClues[j].clue
  {
    assert CartaRasgada[1] != ChaveMestra[1];
    assert CartaRasgada[0] != FrascoDeVeneno[0] && CartaRasgada[0] != AgendaMisteriosa[0];
    assert CartaRasgada[0] != BotinaSujaDeTerra[0] && CartaRasgada[0] != PaComTerraMolhada[0];
    assert ChaveMestra[0] != FrascoDeVeneno[0] && ChaveMestra[0] != AgendaMisteriosa[0];
    assert ChaveMestra[0] != BotinaSujaDeTerra[0] && ChaveMestra[0] != PaComTerraMolhada[0];
    assert FrascoDeVeneno[0] != AgendaMisteriosa[0] && FrascoDeVeneno[0] != BotinaSujaDeTerra[0];
    assert FrascoDeVeneno[0] != PaComTerraMolhada[0];
    assert AgendaMisteriosa[0] != BotinaSujaDeTerra[0] && AgendaMisteriosa[0] != PaComTerraMolhada[0];
    assert BotinaSujaDeTerra[0] != PaComTerraMolhada[0];
  }

  /** Each setup clue looks up to the suspect main pairs it with; the hall's name was never inserted. */
  lemma SetupLookups()
    ensures Latest(SetupClues, CartaRasgada) == Some(Mordomo)
    ensures Latest(SetupClues, ChaveMestra) == Some(Mordomo)
    ensures Latest(SetupClues, FrascoDeVeneno) == Some(Governanta)
    ensures Latest(SetupClues, AgendaMisteriosa) == Some(Governanta)
    ensures Latest(SetupClues, BotinaSujaDeTerra) == Some(Jardineiro)
    ensures Latest(SetupClues, PaComTerraMolhada) == Some(Jardineiro)
    ensures Latest(SetupClues, HallDeEntrada) == None
  {
    SetupCluesUnique();
    forall e | e in SetupClues ensures Latest(SetupClues, e.clue) == Some(e.suspect) {
      LatestOfUniqueClues(SetupClues, e);
    }
    assert SetupClues[0] == HashItem(CartaRasgada, Mordomo);
    assert SetupClues[1] == HashItem(ChaveMestra, Mordomo);
    assert SetupClues[2] == HashItem(FrascoDeVeneno, Governanta);
    assert SetupClues[3] == HashItem(AgendaMisteriosa, Governanta);
    assert SetupClues[4] == HashItem(BotinaSujaDeTerra, Jardineiro);
    assert SetupClues[5] == HashItem(PaComTerraMolhada, Jardineiro);
    LatestNoneIffAbsent(SetupClues, HallDeEntrada);
    assert HallDeEntrada[0] !in {CartaRasgada[0], ChaveMestra[0], FrascoDeVeneno[0], AgendaMisteriosa[0]};
    assert HallDeEntrada[0] != BotinaSujaDeTerra[0] && HallDeEntrada[0] != PaComTerraMolhada[0];
  }

  /** Every clue a room can yield has a suspect in the table, so no tally lookup fails. */
  lemma EveryRoomClueHasSuspect(nomeSala: CStr)
    ensures ClueForRoom(nomeSala).Some? ==> Latest(SetupClues, ClueForRoom(nomeSala).value).Some?
  {
    SetupLookups();
  }

  /** main's table-filling sequence: an empty table, then the six inserts. */
  method SetupSuspects() returns (table: SuspectTable)
    ensures fresh(table) && fresh(table.buckets)
    ensures table.Valid() && table.History == SetupClues
  {
    table := new SuspectTable();
    table.Insert(CartaRasgada, Mordomo);
    table.Insert(ChaveMestra, Mordomo);
    table.Insert(FrascoDeVeneno, Governanta);
    table.Insert(AgendaMisteriosa, Governanta);
    table.Insert(BotinaSujaDeTerra, Jardineiro);
    table.Insert(PaComTerraMolhada, Jardineiro);
  }

  /**
   * One game: set up the table and the mansion, explore from the hall with the
   * keys `escolhas`, then judge the accusation. There is evidence exactly when
   * the walk passed a room with a clue, and the tally counts the distinct clues
   * found whose suspect is the capitalised accusation. The keys hold an 's':
   * without one the program never reaches the judgment.
   */
  method Play(escolhas: seq<Key>, acusacao: CStr) returns (outcome: Outcome)
    requires ChoiceExit in escolhas
    ensures var found := CluesAlong(Visits(MansionMap(), escolhas));
      (outcome == NoEvidence <==> found == []) &&
      (outcome.Judged? ==>
        outcome.accused == Capitalise(acusacao) &&
        outcome.count == |Accusing((set c | c in found), SetupClues, outcome.accused)| &&
        (outcome.ruling == Guilty <==> outcome.count >= GuiltyThreshold))
  {
    var table := SetupSuspects();
    var hall := MansionMap();
    var arvorePistas, _ := Explore(Some(hall), escolhas, Leaf);
    ghost var found := CluesAlong(Visits(hall, escolhas));
    CollectedTreeSorted(found);
    assert found != [] ==> found[0] in Keys(arvorePistas);
    outcome := Judge(arvorePistas, table, acusacao);
  }

  /** No two of the mansion's room names are equal, as their first bytes show. */
  lemma NamesDistinct()
    ensures HallDeEntrada !in {SalaDeEstar, Biblioteca, Cozinha, SalaDeJantar, Escritorio, JardimDeInverno}
    ensures SalaDeEstar !in {Biblioteca, Cozinha, SalaDeJantar, Escritorio, JardimDeInverno}
    ensures SalaDeJantar !in {Biblioteca, Cozinha, Escritorio, JardimDeInverno}
    ensures Escritorio !in {Biblioteca, Cozinha, JardimDeInverno}
    ensures Cozinha !in {Biblioteca, JardimDeInverno}
  {
    assert HallDeEntrada[0] !in {Biblioteca[0], Cozinha[0], JardimDeInverno[0], Escritorio[0], SalaDeJantar[0], SalaDeEstar[0]};
    assert SalaDeEstar[0] !in {Biblioteca[0], Cozinha[0], JardimDeInverno[0], Escritorio[0]};
    assert SalaDeEstar[8] != SalaDeJantar[8];
    assert SalaDeJantar[0] !in {Biblioteca[0], Cozinha[0], JardimDeInverno[0], Escritorio[0]};
    assert Escritorio[0] !in {Biblioteca[0], Cozinha[0], JardimDeInverno[0]};
    assert Cozinha[0] !in {Biblioteca[0], JardimDeInverno[0]};
  }

  lemma CluesAlongThree(a: Room, b: Room, c: Room)
    ensures CluesAlong([a, b, c]) == RoomClue(a) + RoomClue(b) + RoomClue(c)
  {
    assert [a, b, c][1..] == [b, c] && [b, c][1..] == [c] && [c][1..] == [];
    assert CluesAlong([c]) == RoomClue(c) + CluesAlong([]);
    assert CluesAlong([b, c]) == RoomClue(b) + CluesAlong([c]);
  }

  /** "mordomo", as a player might type it. */
  const MordomoTyped: CStr := [109, 111, 114, 100, 111, 109, 111]

  lemma CapitaliseMordomo()
    ensures Capitalise(MordomoTyped) == Mordomo
  {
    assert [MordomoTyped[0] - 32] + MordomoTyped[1..] == Mordomo;
  }

  /** Hall, right to the library, left to the study, leave: the rooms and clues of that walk. */
  lemma LibraryThenStudyWalk()
    ensures var rooms := Visits(MansionMap(), [ChoiceRight, ChoiceLeft, ChoiceExit]);
      |rooms| == 3 && rooms[1].name == Biblioteca && rooms[2].name == Escritorio &&
      CluesAlong(rooms) == [CartaRasgada, ChaveMestra]
  {
    var hall := MansionMap();
    var library := hall.right.value;
    var study := library.left.value;
    NamesDistinct();
    assert Visits(study, [ChoiceExit]) == [study];
    assert Visits(library, [ChoiceLeft, ChoiceExit]) == [library, study] by {
      assert [ChoiceLeft, ChoiceExit][1..] == [ChoiceExit];
    }
    assert Visits(hall, [ChoiceRight, ChoiceLeft, ChoiceExit]) == [hall, library, study] by {
      assert [ChoiceRight, ChoiceLeft, ChoiceExit][1..] == [ChoiceLeft, ChoiceExit];
    }
    assert RoomClue(hall) == [] && RoomClue(library) == [CartaRasgada] && RoomClue(study) == [ChaveMestra];
    CluesAlongThree(hall, library, study);
  }

  /** The butler's two clues are stored in the order they are found. */
  lemma ButlerCluesStored()
    ensures InOrder(InsertAll(Leaf, [CartaRasgada, ChaveMestra])) == [CartaRasgada, ChaveMestra]
  {
    assert Strcmp(ChaveMestra, CartaRasgada) == 1 by {
      assert ChaveMestra[1..][0] == 104 && CartaRasgada[1..][0] == 97;
    }
    var one := Insert(Leaf, CartaRasgada);
    assert Insert(one, ChaveMestra) == Node(Leaf, CartaRasgada, Node(Leaf, ChaveMestra, Leaf));
    assert InsertAll(Leaf, [CartaRasgada, ChaveMestra]) == InsertAll(one, [ChaveMestra]) by {
      assert [CartaRasgada, ChaveMestra][1..] == [ChaveMestra];
    }
    assert InsertAll(one, [ChaveMestra]) == Insert(one, ChaveMestra) by {
      assert [ChaveMestra][1..] == [];
    }
  }

  /** Both of the butler's clues accuse Mordomo. */
  lemma ButlerCluesAccuse()
    ensures |Accusing({CartaRasgada, ChaveMestra}, SetupClues, Mordomo)| == 2
  {
    SetupLookups();
    assert Accusing({CartaRasgada, ChaveMestra}, SetupClues, Mordomo) == {CartaRasgada, ChaveMestra};
    assert CartaRasgada != ChaveMestra by { assert CartaRasgada[1] != ChaveMestra[1]; }
  }

  /** The game of that walk, accusing "mordomo": two clues, guilty. */
  method PlayLibraryThenStudy() returns (outcome: Outcome)
    ensures outcome == Judged(Mordomo, 2, Guilty)
  {
    outcome := Play([ChoiceRight, ChoiceLeft, ChoiceExit], MordomoTyped);
    LibraryThenStudyWalk();
    ButlerCluesStored();
    ButlerCluesAccuse();
    CapitaliseMordomo();
    assert (set c | c in [CartaRasgada, ChaveMestra]) == {CartaRasgada, ChaveMestra};
  }

  /** Leaving from the hall at once collects nothing. */
  lemma HallOnly()
    ensures CluesAlong(Visits(MansionMap(), [ChoiceExit])) == []
  {
    assert HallDeEntrada[0] !in {Biblioteca[0], Cozinha[0], JardimDeInverno[0], Escritorio[0], SalaDeJantar[0], SalaDeEstar[0]};
  }

  /** The game of that walk: no evidence, so no accusation is judged. */
  method PlayHallOnly(acusacao: CStr) returns (outcome: Outcome)
    ensures outcome == NoEvidence
  {
    outcome := Play([ChoiceExit], acusacao);
    HallOnly();
  }

  /**
   * Hall, left to the living room, right to the dining room, leave: one clue
   * of the gardener's and one of the housekeeper's.
   */
  lemma LivingThenDining()
    ensures CluesAlong(Visits(MansionMap(), [ChoiceLeft, ChoiceRight, ChoiceExit])) == [PaComTerraMolhada, AgendaMisteriosa]
    ensures |Accusing({PaComTerraMolhada, AgendaMisteriosa}, SetupClues, Governanta)| == 1
  {
    var hall := MansionMap();
    var living := hall.left.value;
    var dining := living.right.value;
    NamesDistinct();
    assert Visits(dining, [ChoiceExit]) == [dining];
    assert Visits(living, [ChoiceRight, ChoiceExit]) == [living, dining] by {
      assert [ChoiceRight, ChoiceExit][1..] == [ChoiceExit];
    }
    assert Visits(hall, [ChoiceLeft, ChoiceRight, ChoiceExit]) == [hall, living, dining] by {
      assert [ChoiceLeft, ChoiceRight, ChoiceExit][1..] == [ChoiceRight, ChoiceExit];
    }
    assert RoomClue(hall) == [] && RoomClue(living) == [PaComTerraMolhada] && RoomClue(dining) == [AgendaMisteriosa];
    CluesAlongThree(hall, living, dining);
    SetupLookups();
    assert Governanta != Jardineiro;
    assert Accusing({PaComTerraMolhada, AgendaMisteriosa}, SetupClues, Governanta) == {AgendaMisteriosa};
  }

  /** The game of that walk, accusing the housekeeper: one clue, below the threshold. */
  method PlayOneHousekeeperClue() returns (outcome: Outcome)
    ensures outcome == Judged(Governanta, 1, Innocent)
  {
    outcome := Play([ChoiceLeft, ChoiceRight, ChoiceExit], Governanta);
    LivingThenDining();
    assert Capitalise(Governanta) == Governanta;
    assert (set c | c in [PaComTerraMolhada, AgendaMisteriosa]) == {PaComTerraMolhada, AgendaMisteriosa};
  }

  /**
   * Left, left, left again from the kitchen (no room there: blocked), leave.
   * The kitchen is entered twice and its clue collected twice.
   */
  lemma BlockedInKitchen()
    ensures var rooms := Visits(MansionMap(), [ChoiceLeft, ChoiceLeft, ChoiceLeft, ChoiceExit]);
      |rooms| == 4 && rooms[2] == rooms[3] && rooms[3].name == Cozinha &&
      CluesAlong(rooms) == [PaComTerraMolhada, FrascoDeVeneno, FrascoDeVeneno]
  {
    var hall := MansionMap();
    var living := hall.left.value;
    var kitchen := living.left.value;
    NamesDistinct();
    assert Visits(kitchen, [ChoiceExit]) == [kitchen];
    assert Visits(kitchen, [ChoiceLeft, ChoiceExit]) == [kitchen, kitchen] by {
      assert [ChoiceLeft, ChoiceExit][1..] == [ChoiceExit];
    }
    assert Visits(living, [ChoiceLeft, ChoiceLeft, ChoiceExit]) == [living, kitchen, kitchen] by {
      assert [ChoiceLeft, ChoiceLeft, ChoiceExit][1..] == [ChoiceLeft, ChoiceExit];
    }
    assert Visits(hall, [ChoiceLeft, ChoiceLeft, ChoiceLeft, ChoiceExit]) == [hall, living, kitchen, kitchen] by {
      assert [ChoiceLeft, ChoiceLeft, ChoiceLeft, ChoiceExit][1..] == [ChoiceLeft, ChoiceLeft, ChoiceExit];
    }
    assert RoomClue(hall) == [] && RoomClue(living) == [PaComTerraMolhada] && RoomClue(kitchen) == [FrascoDeVeneno];
    CluesAlongThree(living, kitchen, kitchen);
    assert [hall, living, kitchen, kitchen][1..] == [living, kitchen, kitchen];
  }

  /** The clue collected twice on that walk is stored once, and the walk lists it first. */
  lemma KitchenClueKeptOnce()
    ensures InOrder(InsertAll(Leaf, [PaComTerraMolhada, FrascoDeVeneno, FrascoDeVeneno])) == [FrascoDeVeneno, PaComTerraMolhada]
  {
    LivingRoomClueFirst();
    KitchenClueGoesLeft();
    KitchenClueAgain();
  }

  lemma LivingRoomClueFirst()
    ensures InsertAll(Leaf, [PaComTerraMolhada, FrascoDeVeneno, FrascoDeVeneno]) ==
      InsertAll(Node(Leaf, PaComTerraMolhada, Leaf), [FrascoDeVeneno, FrascoDeVeneno])
  {
    assert [PaComTerraMolhada, FrascoDeVeneno, FrascoDeVeneno][1..] == [FrascoDeVeneno, FrascoDeVeneno];
  }

  lemma KitchenClueGoesLeft()
    ensures InsertAll(Node(Leaf, PaComTerraMolhada, Leaf), [FrascoDeVeneno, FrascoDeVeneno]) ==
      InsertAll(Node(Node(Leaf, FrascoDeVeneno, Leaf), PaComTerraMolhada, Leaf), [FrascoDeVeneno])
  {
    assert [FrascoDeVeneno, FrascoDeVeneno][1..] == [FrascoDeVeneno];
    assert Strcmp(FrascoDeVeneno, PaComTerraMolhada) == -1;
  }

  lemma KitchenClueAgain()
    ensures InsertAll(Node(Node(Leaf, FrascoDeVeneno, Leaf), PaComTerraMolhada, Leaf), [FrascoDeVeneno]) ==
      Node(Node(Leaf, FrascoDeVeneno, Leaf), PaComTerraMolhada, Leaf)
  {
    assert [FrascoDeVeneno][1..] == [];
    assert Strcmp(FrascoDeVeneno, PaComTerraMolhada) == -1;
  }
}
