/**
 * The binary search tree of collected clues (PistaNode): keys ordered by
 * strcmp, duplicates suppressed on insertion, walked in order for display
 * and for the verdict tally.
 */
module ClueIndex {
  import opened CString

  /** A PistaNode pointer: `Leaf` is NULL, `Node` owns its two subtrees. */
  datatype ClueTree = Leaf | Node(left: ClueTree, clue: CStr, right: ClueTree)

  /** The set of clues stored in the tree. */
  function Keys(t: ClueTree): set<CStr> {
    match t
    case Leaf => {}
    case Node(l, k, r) => Keys(l) + {k} + Keys(r)
  }

  /** The number of nodes. */
  function Size(t: ClueTree): nat {
    match t
    case Leaf => 0
    case Node(l, _, r) => Size(l) + 1 + Size(r)
  }

  /** Every left key compares below its node's key and every right key above it. */
  ghost predicate IsBST(t: ClueTree) {
    match t
    case Leaf => true
    case Node(l, k, r) =>
      IsBST(l) && IsBST(r) &&
      (forall x | x in Keys(l) :: Less(x, k)) &&
      (forall y | y in Keys(r) :: Less(k, y))
  }

  /**
   * inserirPista: descend by strcmp, return the tree unchanged when the clue is
   * already at the node compared, otherwise rebind the chosen subtree.
   */
  function Insert(t: ClueTree, clue: CStr): (r: ClueTree)
    ensures Keys(r) == Keys(t) + {clue}
    ensures IsBST(t) ==> IsBST(r)
    ensures IsBST(t) && clue in Keys(t) ==> r == t
    ensures IsBST(t) && clue !in Keys(t) ==> Size(r) == Size(t) + 1
    ensures Size(t) <= Size(r) <= Size(t) + 1
  {
    match t
    case Leaf => Node(Leaf, clue, Leaf)
    case Node(l, k, rt) =>
      var cmp := Strcmp(clue, k);
      StrcmpAntisymmetric(clue, k);
      if cmp == 0 then t
      else if cmp < 0 then
        Node(Insert(l, clue), k, rt)
      else
        Node(l, k, Insert(rt, clue))
  }

  /** exibirPistas: the keys in the order the in-order walk visits them. */
  function InOrder(t: ClueTree): (s: seq<CStr>)
    ensures |s| == Size(t)
    ensures forall x :: x in s <==> x in Keys(t)
  {
    match t
    case Leaf => []
    case Node(l, k, r) => InOrder(l) + [k] + InOrder(r)
  }

  /** Each element compares below every later one. */
  ghost predicate StrictlyAscending(s: seq<CStr>) {
    forall i, j | 0 <= i < j < |s| :: Less(s[i], s[j])
  }

  /** The in-order walk of a search tree lists exactly its keys, ascending, each once. */
  lemma {:induction false} InOrderSorted(t: ClueTree)
    requires IsBST(t)
    ensures forall x :: x in InOrder(t) <==> x in Keys(t)
    ensures StrictlyAscending(InOrder(t))
    ensures |InOrder(t)| == Size(t)
  {
    match t
    case Leaf =>
    case Node(l, k, r) =>
      InOrderSorted(l);
      InOrderSorted(r);
      var sl, sr := InOrder(l), InOrder(r);
      var s := sl + [k] + sr;
      forall i, j | 0 <= i < j < |s|
        ensures Less(s[i], s[j])
      {
        if j < |sl| {
        } else if i < |sl| && j == |sl| {
          assert s[i] in Keys(l);
        } else if i < |sl| {
          assert s[i] in Keys(l) && s[j] == sr[j - |sl| - 1];
          assert s[j] in Keys(r);
          LessTransitive(s[i], k, s[j]);
        } else if i == |sl| {
          assert s[j] == sr[j - |sl| - 1];
          assert s[j] in Keys(r);
        } else {
          assert s[i] == sr[i - |sl| - 1] && s[j] == sr[j - |sl| - 1];
        }
      }
  }

  /** A search tree holds no key twice: it has as many distinct keys as nodes. */
  lemma {:induction false} NoDuplicateKeys(t: ClueTree)
    requires IsBST(t)
    ensures |Keys(t)| == Size(t)
  {
    match t
    case Leaf =>
    case Node(l, k, r) =>
      NoDuplicateKeys(l);
      NoDuplicateKeys(r);
      forall x | x in Keys(l) ensures x !in Keys(r) && x != k {
        if x in Keys(r) { LessTransitive(x, k, x); }
      }
      assert k !in Keys(r);
      assert Keys(l) * {k} == {};
      assert (Keys(l) + {k}) * Keys(r) == {};
  }

  /** The clue tree after inserting each clue of `clues` in turn. */
  function InsertAll(t: ClueTree, clues: seq<CStr>): (r: ClueTree)
    ensures Keys(r) == Keys(t) + set c | c in clues
    ensures IsBST(t) ==> IsBST(r)
    decreases |clues|
  {
    if clues == [] then t
    else
      var r := InsertAll(Insert(t, clues[0]), clues[1..]);
      assert forall c :: c in clues <==> c == clues[0] || c in clues[1..];
      r
  }

  lemma {:induction false} InsertAllAppend(t: ClueTree, a: seq<CStr>, b: seq<CStr>)
    ensures InsertAll(t, a + b) == InsertAll(InsertAll(t, a), b)
    decreases |a|
  {
    if a == [] {
      assert a + b == b;
    } else {
      assert (a + b)[0] == a[0] && (a + b)[1..] == a[1..] + b;
      InsertAllAppend(Insert(t, a[0]), a[1..], b);
    }
  }

  /**
   * Whatever clues are collected, in whatever order, the tree built from an
   * empty one holds exactly those clues, each once, and its in-order walk is
   * strictly ascending.
   */
  lemma CollectedTreeSorted(clues: seq<CStr>)
    ensures var t := InsertAll(Leaf, clues);
      IsBST(t) &&
      (forall x :: x in InOrder(t) <==> x in clues) &&
      StrictlyAscending(InOrder(t)) &&
      |Keys(t)| == Size(t)
  {
    var t := InsertAll(Leaf, clues);
    InOrderSorted(t);
    NoDuplicateKeys(t);
  }
}
