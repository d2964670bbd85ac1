/**
 * The mansion (Sala tree), the static room-to-clue lookup, and the exploration
 * loop that walks the tree under the player's choices, collecting clues.
 */
module Mansion {
  import opened CString
  import opened ClueIndex

  /** A Sala: a named room owning its optional left and right neighbours. */
  datatype Room = Room(name: CStr, left: Option<Room>, right: Option<Room>)

  /** The state of the exploration loop: standing in a room, or gone. */
  datatype State = AtRoom(current: Room) | Exited

  /**
   * A menu key as `scanf(" %c")` stores it: any byte, NUL included (a NUL key
   * is simply an invalid option).
   */
  type Key = b: int | 0 <= b < 256

  /** The menu keys 'e' (left), 'd' (right) and 's' (leave). */
  const ChoiceLeft: Key := 'e' as int
  const ChoiceRight: Key := 'd' as int
  const ChoiceExit: Key := 's' as int

  /** "Hall de Entrada" */
  const HallDeEntrada: CStr := [72, 97, 108, 108, 32, 100, 101, 32, 69, 110, 116, 114, 97, 100, 97]
  /** "Sala de Estar" */
  const SalaDeEstar: CStr := [83, 97, 108, 97, 32, 100, 101, 32, 69, 115, 116, 97, 114]
  /** "Biblioteca" */
  const Biblioteca: CStr := [66, 105, 98, 108, 105, 111, 116, 101, 99, 97]
  /** "Cozinha" */
  const Cozinha: CStr := [67, 111, 122, 105, 110, 104, 97]
  /** "Sala de Jantar" */
  const SalaDeJantar: CStr := [83, 97, 108, 97, 32, 100, 101, 32, 74, 97, 110, 116, 97, 114]
  /** "Escritorio" */
  const Escritorio: CStr := [69, 115, 99, 114, 105, 116, 111, 114, 105, 111]
  /** "Jardim de Inverno" */
  const JardimDeInverno: CStr := [74, 97, 114, 100, 105, 109, 32, 100, 101, 32, 73, 110, 118, 101, 114, 110, 111]

  /** "Carta rasgada" */
  const CartaRasgada: CStr := [67, 97, 114, 116, 97, 32, 114, 97, 115, 103, 97, 100, 97]
  /** "Frasco de veneno" */
  const FrascoDeVeneno: CStr := [70, 114, 97, 115, 99, 111, 32, 100, 101, 32, 118, 101, 110, 101, 110, 111]
  /** "Botina suja de terra" */
  const BotinaSujaDeTerra: CStr := [66, 111, 116, 105, 110, 97, 32, 115, 117, 106, 97, 32, 100, 101, 32, 116, 101, 114, 114, 97]
  /** "Chave mestra" */
  const ChaveMestra: CStr := [67, 104, 97, 118, 101, 32, 109, 101, 115, 116, 114, 97]
  /** "Agenda misteriosa" */
  const AgendaMisteriosa: CStr := [65, 103, 101, 110, 100, 97, 32, 109, 105, 115, 116, 101, 114, 105, 111, 115, 97]
  /** "Pá com terra molhada", UTF-8 encoded: the accented letter is the two bytes 0xC3 0xA1. */
  const PaComTerraMolhada: CStr := [80, 195, 161, 32, 99, 111, 109, 32, 116, 101, 114, 114, 97, 32, 109, 111, 108, 104, 97, 100, 97]

  /** obterPistaDaSala: the clue hidden in the room with this name, if any. */
  function ClueForRoom(nomeSala: CStr): (pista: Option<CStr>)
    ensures pista.Some? <==> nomeSala in {Biblioteca, Cozinha, JardimDeInverno, Escritorio, SalaDeJantar, SalaDeEstar}
    ensures pista.Some? ==>
      pista.value in {CartaRasgada, FrascoDeVeneno, BotinaSujaDeTerra, ChaveMestra, AgendaMisteriosa, PaComTerraMolhada}
  {
    if nomeSala == Biblioteca then Some(CartaRasgada)
    else if nomeSala == Cozinha then Some(FrascoDeVeneno)
    else if nomeSala == JardimDeInverno then Some(BotinaSujaDeTerra)
    else if nomeSala == Escritorio then Some(ChaveMestra)
    else if nomeSala == SalaDeJantar then Some(AgendaMisteriosa)
    else if nomeSala == SalaDeEstar then Some(PaComTerraMolhada)
    else None
  }

  /** Each clue is found in exactly one room, and the entrance hall holds none. */
  lemma ClueForRoomInjective(a: CStr, b: CStr)
    requires ClueForRoom(a).Some? && ClueForRoom(a) == ClueForRoom(b)
    ensures a == b
    ensures ClueForRoom(HallDeEntrada) == None
  {
    assert CartaRasgada[0] != FrascoDeVeneno[0] && CartaRasgada[1] != ChaveMestra[1];
    assert CartaRasgada[0] != BotinaSujaDeTerra[0] && CartaRasgada[0] != AgendaMisteriosa[0];
    assert CartaRasgada[0] != PaComTerraMolhada[0];
    assert FrascoDeVeneno[0] != BotinaSujaDeTerra[0] && FrascoDeVeneno[0] != ChaveMestra[0];
    assert FrascoDeVeneno[0] != AgendaMisteriosa[0] && FrascoDeVeneno[0] != PaComTerraMolhada[0];
    assert BotinaSujaDeTerra[0] != ChaveMestra[0] && BotinaSujaDeTerra[0] != AgendaMisteriosa[0];
    assert BotinaSujaDeTerra[0] != PaComTerraMolhada[0];
    assert ChaveMestra[0] != AgendaMisteriosa[0] && ChaveMestra[0] != PaComTerraMolhada[0];
    assert AgendaMisteriosa[0] != PaComTerraMolhada[0];
    assert HallDeEntrada[0] != Biblioteca[0] && HallDeEntrada[0] != Cozinha[0];
    assert HallDeEntrada[0] != JardimDeInverno[0] && HallDeEntrada[0] != Escritorio[0];
    assert HallDeEntrada[0] != SalaDeJantar[0] && HallDeEntrada[0] != SalaDeEstar[0];
  }

  /**
   * One pass of the navigation in explorarSalas: 'e' and 'd' move to that
   * neighbour when it exists and otherwise stay (path blocked), 's' leaves,
   * any other key stays (invalid option).
   */
  function Step(salaAtual: Room, escolha: Key): (s: State)
    ensures s == Exited <==> escolha == ChoiceExit
    ensures escolha == ChoiceLeft && salaAtual.left.Some? ==> s == AtRoom(salaAtual.left.value)
    ensures escolha == ChoiceRight && salaAtual.right.Some? ==> s == AtRoom(salaAtual.right.value)
    ensures s.AtRoom? && s.current != salaAtual <==>
      (escolha == ChoiceLeft && salaAtual.left.Some?) || (escolha == ChoiceRight && salaAtual.right.Some?)
  {
    if escolha == ChoiceLeft then
      if salaAtual.left.Some? then AtRoom(salaAtual.left.value) else AtRoom(salaAtual)
    else if escolha == ChoiceRight then
      if salaAtual.right.Some? then AtRoom(salaAtual.right.value) else AtRoom(salaAtual)
    else if escolha == ChoiceExit then Exited
    else AtRoom(salaAtual)
  }

  /** `r` is `root` or lies below it. */
  ghost predicate Within(r: Room, root: Room)
    decreases root
  {
    r == root ||
    (root.left.Some? && Within(r, root.left.value)) ||
    (root.right.Some? && Within(r, root.right.value))
  }

  /**
   * The rooms the exploration loop enters, in order, starting in `here` and
   * reading `escolhas`: one per pass, up to the pass that reads 's' or the
   * end of the input.
   */
  function Visits(here: Room, escolhas: seq<Key>): (rooms: seq<Room>)
    ensures 1 <= |rooms| <= |escolhas| + 1 && rooms[0] == here
    ensures |rooms| == |escolhas| + 1 <==> ChoiceExit !in escolhas
    decreases |escolhas|
  {
    if escolhas == [] then [here]
    else match Step(here, escolhas[0])
      case Exited => [here]
      case AtRoom(next) => [here] + Visits(next, escolhas[1..])
  }

  /**
   * The walk never leaves the mansion: every room entered lies in the tree
   * below the starting room, and each is the previous one or its neighbour.
   */
  lemma {:induction false} VisitsStayInMansion(here: Room, escolhas: seq<Key>)
    ensures forall i | 0 <= i < |Visits(here, escolhas)| :: Within(Visits(here, escolhas)[i], here)
    ensures forall i | 0 < i < |Visits(here, escolhas)| :: Neighbour(Visits(here, escolhas)[i - 1], Visits(here, escolhas)[i])
    decreases |escolhas|
  {
    if escolhas != [] && Step(here, escolhas[0]).AtRoom? {
      var next := Step(here, escolhas[0]).current;
      VisitsStayInMansion(next, escolhas[1..]);
      var rest := Visits(next, escolhas[1..]);
      var rooms := Visits(here, escolhas);
      assert rooms == [here] + rest;
      assert Neighbour(here, next);
      forall i | 0 <= i < |rest| ensures Within(rest[i], here) {
        assert Within(rest[i], next);
        WithinTransitive(rest[i], next, here);
      }
      forall i | 1 < i < |rooms|
        ensures Neighbour(rooms[i - 1], rooms[i])
      {
        assert rooms[i] == rest[i - 1] && rooms[i - 1] == rest[i - 2];
      }
    }
  }

  /** `b` is `a` itself or one of its two neighbours below. */
  predicate Neighbour(a: Room, b: Room) {
    b == a || Some(b) == a.left || Some(b) == a.right
  }

  lemma {:induction false} WithinTransitive(a: Room, b: Room, c: Room)
    requires Within(a, b) && Neighbour(c, b)
    ensures Within(a, c)
    decreases c
  {
    if b != c {
      if Some(b) == c.left {
        assert Within(a, c.left.value);
      } else {
        assert Within(a, c.right.value);
      }
    }
  }

  /** The clue of one room, as a sequence of zero or one clues. */
  function RoomClue(r: Room): seq<CStr> {
    match ClueForRoom(r.name)
    case Some(c) => [c]
    case None => []
  }

  /** The clues found along a walk, in the order they are found. */
  function CluesAlong(rooms: seq<Room>): (clues: seq<CStr>)
    ensures |clues| <= |rooms|
  {
    if rooms == [] then [] else RoomClue(rooms[0]) + CluesAlong(rooms[1..])
  }

  /** One pass of the loop: collect the room's clue, then read one key. */
  lemma ExplorePass(found: ClueTree, here: Room, escolhas: seq<Key>)
    ensures var withClue := InsertAll(found, RoomClue(here));
      InsertAll(found, CluesAlong(Visits(here, escolhas))) ==
        if escolhas == [] || Step(here, escolhas[0]) == Exited then withClue
        else InsertAll(withClue, CluesAlong(Visits(Step(here, escolhas[0]).current, escolhas[1..])))
  {
    var rooms := Visits(here, escolhas);
    assert rooms == [here] + rooms[1..];
    assert CluesAlong(rooms) == RoomClue(here) + CluesAlong(rooms[1..]);
    InsertAllAppend(found, RoomClue(here), CluesAlong(rooms[1..]));
  }

  /**
   * The clue tree the exploration loop leaves behind when it starts in `here`
   * with `found` and reads `rest`, unfolded one pass at a time.
   */
  ghost function Explored(found: ClueTree, here: Room, rest: seq<Key>): ClueTree
    decreases |rest|
  {
    var withClue := InsertAll(found, RoomClue(here));
    if rest == [] || rest[0] == ChoiceExit then withClue
    else Explored(withClue, Step(here, rest[0]).current, rest[1..])
  }

  /** Pass by pass, the loop collects the clues of the rooms the walk enters, in order. */
  lemma {:induction false} ExploredCollectsWalk(found: ClueTree, here: Room, rest: seq<Key>)
    ensures Explored(found, here, rest) == InsertAll(found, CluesAlong(Visits(here, rest)))
    decreases |rest|
  {
    ExplorePass(found, here, rest);
    if rest != [] && rest[0] != ChoiceExit {
      ExploredCollectsWalk(InsertAll(found, RoomClue(here)), Step(here, rest[0]).current, rest[1..]);
    }
  }

  /**
   * The collecting half of one pass of explorarSalas: look up the room's clue
   * and, when there is one, insert it into the clue tree.
   */
  method CollectClue(arvorePistas: ClueTree, salaAtual: Room) returns (found: ClueTree)
    ensures found == InsertAll(arvorePistas, RoomClue(salaAtual))
    ensures ClueForRoom(salaAtual.name) == None ==> found == arvorePistas
  {
    found := arvorePistas;
    var pistaEncontrada := ClueForRoom(salaAtual.name);
    if pistaEncontrada.Some? {
      found := Insert(found, pistaEncontrada.value);
      assert RoomClue(salaAtual)[1..] == [];
    }
  }

  /**
   * The navigating half of one pass of explorarSalas: follow 'e' or 'd' when
   * that neighbour exists, stay when it does not or the key is unknown, and
   * leave on 's'.
   */
  method Navigate(salaAtual: Room, escolha: Key) returns (s: State)
    ensures s == Exited <==> escolha == ChoiceExit
    ensures escolha == ChoiceLeft && salaAtual.left.Some? ==> s == AtRoom(salaAtual.left.value)
    ensures escolha == ChoiceRight && salaAtual.right.Some? ==> s == AtRoom(salaAtual.right.value)
    ensures s.AtRoom? && s.current != salaAtual <==>
      (escolha == ChoiceLeft && salaAtual.left.Some?) || (escolha == ChoiceRight && salaAtual.right.Some?)
  {
    if escolha == ChoiceLeft {
      if salaAtual.left.Some? {
        s := AtRoom(salaAtual.left.value);
      } else {
        s := AtRoom(salaAtual);
      }
    } else if escolha == ChoiceRight {
      if salaAtual.right.Some? {
        s := AtRoom(salaAtual.right.value);
      } else {
        s := AtRoom(salaAtual);
      }
    } else if escolha == ChoiceExit {
      s := Exited;
    } else {
      s := AtRoom(salaAtual);
    }
  }

  /**
   * explorarSalas: starting in `start`, collect each entered room's clue into
   * the clue tree and follow the keys in `escolhas` until 's' (or until the
   * input runs out). A NULL start room ends at once.
   */
  method Explore(start: Option<Room>, escolhas: seq<Key>, arvorePistas: ClueTree)
    returns (found: ClueTree, exited: bool)
    ensures start == None ==> found == arvorePistas && !exited
    ensures start.Some? ==> found == InsertAll(arvorePistas, CluesAlong(Visits(start.value, escolhas)))
    ensures start.Some? ==> (exited <==> ChoiceExit in escolhas)
  {
    found, exited := arvorePistas, false;
    if start == None {
      return;
    }
    var salaAtual := start.value;
    ExploredCollectsWalk(arvorePistas, salaAtual, escolhas);
    ghost var total := Explored(arvorePistas, salaAtual, escolhas);
    var n := 0;
    while true
      invariant 0 <= n <= |escolhas|
      invariant Explored(found, salaAtual, escolhas[n..]) == total
      invariant ChoiceExit !in escolhas[..n]
      decreases |escolhas| - n
    {
      found := CollectClue(found, salaAtual);
      if n == |escolhas| {
        assert escolhas[..n] == escolhas;
        return;
      }
      var escolha := escolhas[n];
      assert escolhas[n..][0] == escolha && escolhas[n..][1..] == escolhas[n + 1..];
      assert escolhas[..n + 1] == escolhas[..n] + [escolha];
      if escolha == ChoiceExit {
        exited := true;
        return;
      }
      var next := Navigate(salaAtual, escolha);
      salaAtual := next.current;
      n := n + 1;
    }
  }
}
