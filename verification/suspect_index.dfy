/**
 * The clue-to-suspect hash table (tabelaHash): HASH_SIZE buckets, each a
 * singly linked chain of HashItem entries, new entries pushed at the head.
 */
module SuspectIndex {
  import opened CString

  /** HASH_SIZE */
  const HashSize: nat := 10

  /** 2^64: the range of `unsigned long` on an LP64 platform. */
  const WordModulus: nat := 0x1_0000_0000_0000_0000

  /** Conversion of an integer to `unsigned long`: reduction modulo 2^64. */
  function Wrap(x: int): (w: nat)
    ensures w < WordModulus
  {
    x % WordModulus
  }

  /** The value of `int c = *pista` for a byte, where `char` is signed (x86-64). */
  function SignedChar(b: Byte): int {
    if b < 128 then b else b - 256
  }

  /** The accumulator of hashFunction after the whole string: h * 65599 + c per byte. */
  function Sdbm(s: CStr): (h: nat)
    ensures h < WordModulus
  {
    if s == [] then 0
    else Wrap(Sdbm(s[..|s| - 1]) * 65599 + SignedChar(s[|s| - 1]))
  }

  /** The bucket hashFunction selects. */
  function Hash(s: CStr): (i: nat)
    ensures i < HashSize
  {
    Sdbm(s) % HashSize
  }

  lemma WrapAdd(x: int, y: int)
    ensures Wrap(Wrap(x) + y) == Wrap(x + y)
  {
    var q := x / WordModulus;
    assert x == q * WordModulus + Wrap(x);
    assert Wrap(x) + y == (x + y) - q * WordModulus;
    ModShift(x + y, -q);
  }

  lemma ModShift(z: int, q: int)
    ensures (z + q * WordModulus) % WordModulus == z % WordModulus
  {
  }

  /**
   * One step of the loop as written, `c + (hash<<6) + (hash<<16) - hash` in
   * unsigned long arithmetic, is one multiply-by-65599-and-add step.
   */
  lemma {:induction false} ShiftStep(h: nat, c: int)
    requires h < WordModulus
    ensures Wrap(Wrap(Wrap(Wrap(c) + Wrap(h * 64)) + Wrap(h * 65536)) - h) == Wrap(h * 65599 + c)
  {
    var a, b := h * 64, h * 65536;
    WrapAdd(c, Wrap(a));
    WrapAdd(a, c);
    assert Wrap(Wrap(c) + Wrap(a)) == Wrap(c + a);
    WrapAdd(c + a, Wrap(b));
    WrapAdd(b, c + a);
    assert Wrap(Wrap(c + a) + Wrap(b)) == Wrap(c + a + b);
    WrapAdd(c + a + b, -(h as int));
  }

  /** hashFunction, with its loop over the bytes and the shifts of the source. */
  method HashFunction(pista: CStr) returns (index: nat)
    ensures index == Sdbm(pista) % HashSize
    ensures index < HashSize
  {
    var hash: nat := 0;
    var n := 0;
    while n < |pista|
      invariant 0 <= n <= |pista|
      invariant hash == Sdbm(pista[..n])
    {
      var c := SignedChar(pista[n]);
      assert pista[..n + 1][..n] == pista[..n];
      ShiftStep(hash, c);
      hash := Wrap(Wrap(Wrap(Wrap(c) + Wrap(hash * 64)) + Wrap(hash * 65536)) - hash);
      n := n + 1;
    }
    assert pista[..n] == pista;
    index := hash % HashSize;
  }

  /**
   * The comment on hashFunction calls it a sum of the character codes; the
   * bucket it computes for "ab" is not that sum's bucket.
   */
  lemma NotByteSum()
    ensures Hash([97, 98]) != (97 + 98) % HashSize
  {
    assert [97, 98][..1] == [97];
    assert [97][..0] == [];
  }

  /** One HashItem: the clue is the key, the suspect the value. */
  datatype HashItem = HashItem(clue: CStr, suspect: CStr)

  /**
   * The chain of bucket i after inserting `history` in order: the entries whose
   * clue hashes to i, newest first.
   */
  ghost function Chain(history: seq<HashItem>, i: nat): seq<HashItem>
  {
    if history == [] then []
    else
      var last := history[|history| - 1];
      var older := Chain(history[..|history| - 1], i);
      if Hash(last.clue) == i then [last] + older else older
  }

  /** The suspect of the first entry of the chain whose clue equals `clue`. */
  ghost function ChainFind(chain: seq<HashItem>, clue: CStr): Option<CStr>
  {
    if chain == [] then None
    else if chain[0].clue == clue then Some(chain[0].suspect)
    else ChainFind(chain[1..], clue)
  }

  /** The suspect most recently associated with `clue`, or None if never inserted. */
  ghost function Latest(history: seq<HashItem>, clue: CStr): Option<CStr>
  {
    if history == [] then None
    else if history[|history| - 1].clue == clue then Some(history[|history| - 1].suspect)
    else Latest(history[..|history| - 1], clue)
  }

  /** Every entry sits in the bucket its clue hashes to. */
  lemma {:induction false} ChainEntriesHashThere(history: seq<HashItem>, i: nat)
    ensures forall e | e in Chain(history, i) :: Hash(e.clue) == i && e in history
  {
    if history != [] {
      ChainEntriesHashThere(history[..|history| - 1], i);
    }
  }

  /** Scanning a clue's own bucket finds its most recent insertion. */
  lemma {:induction false} ChainFindIsLatest(history: seq<HashItem>, clue: CStr)
    ensures ChainFind(Chain(history, Hash(clue)), clue) == Latest(history, clue)
  {
    if history != [] {
      ChainFindIsLatest(history[..|history| - 1], clue);
    }
  }

  /** Lookup fails exactly for clues that were never inserted. */
  lemma {:induction false} LatestNoneIffAbsent(history: seq<HashItem>, clue: CStr)
    ensures Latest(history, clue) == None <==> forall e | e in history :: e.clue != clue
    ensures Latest(history, clue).Some? ==> HashItem(clue, Latest(history, clue).value) in history
  {
    if history != [] {
      var older := history[..|history| - 1];
      LatestNoneIffAbsent(older, clue);
      assert history == older + [history[|history| - 1]];
    }
  }

  /** With no clue inserted twice, each inserted clue looks up to its own suspect. */
  lemma {:induction false} LatestOfUniqueClues(history: seq<HashItem>, e: HashItem)
    requires forall i, j | 0 <= i < j < |history| :: history[i].clue != history[j].clue
    requires e in history
    ensures Latest(history, e.clue) == Some(e.suspect)
  {
    var last := history[|history| - 1];
    if last != e {
      var older := history[..|history| - 1];
      assert history == older + [last];
      assert e in older;
      var i :| 0 <= i < |older| && older[i] == e;
      assert history[i] == e;
      LatestOfUniqueClues(older, e);
    }
  }

  /** tabelaHash together with the sequence of insertions that built it. */
  class SuspectTable {
    var buckets: array<seq<HashItem>>
    ghost var History: seq<HashItem>

    ghost predicate Valid()
      reads this, buckets
    {
      buckets.Length == HashSize &&
      forall i | 0 <= i < HashSize :: buckets[i] == Chain(History, i)
    }

    /** The table as main leaves it after setting every bucket to NULL. */
    constructor ()
      ensures Valid() && fresh(buckets)
      ensures History == []
    {
      buckets := new seq<HashItem>[HashSize](_ => []);
      History := [];
    }

    /** inserirNaHash: push the new entry at the head of its bucket's chain. */
    method Insert(pista: CStr, suspeito: CStr)
      requires Valid()
      modifies this, buckets
      ensures Valid() && buckets == old(buckets)
      ensures History == old(History) + [HashItem(pista, suspeito)]
      ensures buckets[Hash(pista)] == [HashItem(pista, suspeito)] + old(buckets[Hash(pista)])
      ensures forall i | 0 <= i < HashSize && i != Hash(pista) :: buckets[i] == old(buckets[i])
      ensures forall k :: Latest(History, k) == if k == pista then Some(suspeito) else old(Latest(History, k))
    {
      var item := HashItem(pista, suspeito);
      var indice := HashFunction(pista);
      buckets[indice] := [item] + buckets[indice];
      History := History + [item];
      assert History[..|History| - 1] == old(History);
    }

    /** encontrarSuspeito: scan the clue's bucket for the first entry with an equal clue. */
    method Find(pista: CStr) returns (suspeito: Option<CStr>)
      requires Valid()
      ensures suspeito == Latest(History, pista)
      ensures suspeito.Some? ==> HashItem(pista, suspeito.value) in History
      ensures suspeito == None <==> forall e | e in History :: e.clue != pista
    {
      var indice := HashFunction(pista);
      var item := buckets[indice];
      ChainFindIsLatest(History, pista);
      LatestNoneIffAbsent(History, pista);
      while item != []
        invariant ChainFind(item, pista) == Latest(History, pista)
      {
        if Strcmp(item[0].clue, pista) == 0 {
          return Some(item[0].suspect);
        }
        item := item[1..];
      }
      return None;
    }
  }
}
