/**
 * The judgment phase (verificarSuspeitoFinal): normalise the accused name,
 * count the collected clues whose suspect is the accused, apply the threshold.
 */
module Verdict {
  import opened CString
  import opened ClueIndex
  import opened SuspectIndex

  /** The number of pointing clues needed for a conviction. */
  const GuiltyThreshold: nat := 2

  datatype Ruling = Guilty | Innocent

  /** The end of the game: no clue was collected, or a ruling against the accused. */
  datatype Outcome = NoEvidence | Judged(accused: CStr, count: nat, ruling: Ruling)

  predicate IsLowerAscii(b: Byte) {
    'a' as int <= b <= 'z' as int
  }

  /**
   * The accusation as compared with the table: a leading 'a'..'z' is lowered
   * by 32 to its capital, nothing else changes.
   */
  function Capitalise(acusacao: CStr): (r: CStr)
    ensures |r| == |acusacao|
    ensures forall i | 1 <= i < |r| :: r[i] == acusacao[i]
    ensures r != acusacao <==> |acusacao| > 0 && IsLowerAscii(acusacao[0])
    ensures |r| > 0 ==> !IsLowerAscii(r[0])
    ensures |r| > 0 && r[0] != acusacao[0] ==> 'A' as int <= r[0] <= 'Z' as int && acusacao[0] - r[0] == 32
  {
    if |acusacao| > 0 && IsLowerAscii(acusacao[0]) then [acusacao[0] - 32] + acusacao[1..]
    else acusacao
  }

  lemma CapitaliseIdempotent(acusacao: CStr)
    ensures Capitalise(Capitalise(acusacao)) == Capitalise(acusacao)
  {
  }

  /** How many of `clues` the table attributes to `accused`. */
  ghost function Matches(clues: seq<CStr>, history: seq<HashItem>, accused: CStr): nat
  {
    if clues == [] then 0
    else
      var last := clues[|clues| - 1];
      Matches(clues[..|clues| - 1], history, accused) + if Latest(history, last) == Some(accused) then 1 else 0
  }

  /** The collected clues the table attributes to `accused`. */
  ghost function Accusing(keys: set<CStr>, history: seq<HashItem>, accused: CStr): set<CStr>
  {
    set k | k in keys && Latest(history, k) == Some(accused)
  }

  lemma {:induction false} MatchesAppend(a: seq<CStr>, b: seq<CStr>, history: seq<HashItem>, accused: CStr)
    ensures Matches(a + b, history, accused) == Matches(a, history, accused) + Matches(b, history, accused)
    decreases |b|
  {
    if b == [] {
      assert a + b == a;
    } else {
      var b' := b[..|b| - 1];
      assert (a + b)[..|a + b| - 1] == a + b';
      MatchesAppend(a, b', history, accused);
    }
  }

  /** The tally over one node's in-order walk splits at the node. */
  lemma MatchesNode(l: ClueTree, k: CStr, r: ClueTree, history: seq<HashItem>, accused: CStr)
    ensures Matches(InOrder(Node(l, k, r)), history, accused) ==
      Matches(InOrder(l), history, accused) + Matches([k], history, accused) + Matches(InOrder(r), history, accused)
  {
    MatchesAppend(InOrder(l) + [k], InOrder(r), history, accused);
    MatchesAppend(InOrder(l), [k], history, accused);
  }

  lemma AccusingUnion(a: set<CStr>, b: set<CStr>, history: seq<HashItem>, accused: CStr)
    ensures Accusing(a + b, history, accused) == Accusing(a, history, accused) + Accusing(b, history, accused)
    ensures Accusing(a, history, accused) <= a
  {
  }

  lemma AccusingSingle(k: CStr, history: seq<HashItem>, accused: CStr)
    ensures |Accusing({k}, history, accused)| == Matches([k], history, accused)
  {
    assert [k][..0] == [];
    if Latest(history, k) == Some(accused) {
      assert Accusing({k}, history, accused) == {k};
    } else {
      assert Accusing({k}, history, accused) == {};
    }
  }

  lemma DisjointUnionSize(a: set<CStr>, b: set<CStr>)
    requires a * b == {}
    ensures |a + b| == |a| + |b|
  {
  }

  /** In a search tree the left keys, the node key and the right keys are disjoint. */
  lemma AccusingNode(l: ClueTree, k: CStr, r: ClueTree, history: seq<HashItem>, accused: CStr)
    requires IsBST(Node(l, k, r))
    ensures |Accusing(Keys(Node(l, k, r)), history, accused)| ==
      |Accusing(Keys(l), history, accused)| + |Accusing({k}, history, accused)| + |Accusing(Keys(r), history, accused)|
  {
    forall x | x in Keys(l) ensures x !in Keys(r) && x != k {
      if x in Keys(r) { LessTransitive(x, k, x); }
    }
    assert k !in Keys(r);
    var al, ar := Accusing(Keys(l), history, accused), Accusing(Keys(r), history, accused);
    var ak := Accusing({k}, history, accused);
    AccusingUnion(Keys(l) + {k}, Keys(r), history, accused);
    AccusingUnion(Keys(l), {k}, history, accused);
    AccusingUnion({k}, {}, history, accused);
    DisjointUnionSize(al, ak);
    DisjointUnionSize(al + ak, ar);
  }

  /**
   * On a search tree, the in-order tally counts each collected clue pointing
   * at the accused exactly once, so it is at most the number of nodes.
   */
  lemma {:induction false} TallyCountsKeys(t: ClueTree, history: seq<HashItem>, accused: CStr)
    requires IsBST(t)
    ensures Matches(InOrder(t), history, accused) == |Accusing(Keys(t), history, accused)|
    ensures Matches(InOrder(t), history, accused) <= Size(t)
  {
    match t
    case Leaf =>
      assert Accusing(Keys(t), history, accused) == {};
    case Node(l, k, r) =>
      TallyCountsKeys(l, history, accused);
      TallyCountsKeys(r, history, accused);
      MatchesNode(l, k, r, history, accused);
      AccusingNode(l, k, r, history, accused);
      AccusingSingle(k, history, accused);
      NoDuplicateKeys(t);
      SubsetSize(Accusing(Keys(t), history, accused), Keys(t));
  }

  lemma SubsetSize(a: set<CStr>, b: set<CStr>)
    requires a <= b
    ensures |a| <= |b|
  {
    assert b == a + (b - a);
  }

  /**
   * contarPistasPorSuspeito: walk the tree in order, look each clue up in the
   * table and add one to the counter for every suspect equal to the accused.
   */
  method CountBySuspect(raiz: ClueTree, table: SuspectTable, suspeitoAcusado: CStr, contador: nat)
    returns (counted: nat)
    requires table.Valid()
    ensures counted == contador + Matches(InOrder(raiz), table.History, suspeitoAcusado)
    decreases raiz
  {
    if raiz == Leaf {
      return contador;
    }
    counted := CountBySuspect(raiz.left, table, suspeitoAcusado, contador);
    var suspeitoDaPista := table.Find(raiz.clue);
    if suspeitoDaPista.Some? && Strcmp(suspeitoDaPista.value, suspeitoAcusado) == 0 {
      counted := counted + 1;
    }
    counted := CountBySuspect(raiz.right, table, suspeitoAcusado, counted);
    MatchesNode(raiz.left, raiz.clue, raiz.right, table.History, suspeitoAcusado);
    assert [raiz.clue][..0] == [];
  }

  /** The verdict: guilty exactly when at least GuiltyThreshold clues point at the accused. */
  function Rule(pistasContraAcusado: nat): (v: Ruling)
  {
    if pistasContraAcusado >= GuiltyThreshold then Guilty else Innocent
  }

  /**
   * verificarSuspeitoFinal without its console output: with no clue collected
   * there is no accusation; otherwise the capitalised accusation is tallied
   * against the clue tree and ruled on.
   */
  method Judge(arvorePistas: ClueTree, table: SuspectTable, acusacao: CStr) returns (outcome: Outcome)
    requires table.Valid()
    ensures outcome == NoEvidence <==> arvorePistas == Leaf
    ensures outcome.Judged? ==> outcome.accused == Capitalise(acusacao)
    ensures outcome.Judged? ==> outcome.count == Matches(InOrder(arvorePistas), table.History, outcome.accused)
    ensures outcome.Judged? && IsBST(arvorePistas) ==>
      outcome.count == |Accusing(Keys(arvorePistas), table.History, outcome.accused)| <= Size(arvorePistas)
    ensures outcome.Judged? ==> (outcome.ruling == Guilty <==> outcome.count >= 2)
  {
    if arvorePistas == Leaf {
      return NoEvidence;
    }
    var accused := Capitalise(acusacao);
    var pistasContraAcusado := CountBySuspect(arvorePistas, table, accused, 0);
    if IsBST(arvorePistas) {
      TallyCountsKeys(arvorePistas, table.History, accused);
    }
    outcome := Judged(accused, pistasContraAcusado, Rule(pistasContraAcusado));
  }
}
