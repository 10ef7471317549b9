/**
 The hash table of archc/src/acbinutils/acrelconvert.c: 20 buckets of heap-allocated chains. New nodes
 go to the front of their chain, so a later value for an index hides the earlier ones.
 */
module HashTables {
  import opened Words

  const BUCKETS := 20

  type Table = map<Word, Word>

  function Lookup(t: Table, index: Word): Option<Word> {
    if index in t then Some(t[index]) else None
  }

  class HashNode {
    var index: Word
    var value: Word
    var next: HashNode?

    /** The nodes from here to the end of the chain. */
    ghost var chain: seq<HashNode>
    /** What a search that starts here finds. */
    ghost var entries: Table

    ghost predicate Linked()
      reads this, next
    {
      if next == null then
        chain == [this] && entries == map[index := value]
      else
        chain == [this] + next.chain && entries == next.entries[index := value]
    }

    constructor (index: Word, value: Word, next: HashNode?)
      ensures this.index == index && this.value == value && this.next == next
      ensures Linked()
    {
      this.index := index;
      this.value := value;
      this.next := next;
      this.chain := [this] + (if next == null then [] else next.chain);
      this.entries := (if next == null then map[] else next.entries)[index := value];
    }
  }

  class HashTable {
    const buckets: array<HashNode?>
    ghost var nodes: set<HashNode>
    ghost var contents: Table

    /** Every chain stays within its bucket and ends; a search of the bucket finds the contents. */
    ghost predicate Valid()
      reads this, buckets, nodes
    {
      && buckets.Length == BUCKETS
      && (forall n | n in nodes :: NodeInPlace(n))
      && (forall b | 0 <= b < BUCKETS && buckets[b] != null :: buckets[b] in nodes && buckets[b].index % BUCKETS == b)
      && (forall i: Word :: Lookup(contents, i) == FoundIn(buckets[i % BUCKETS], i))
    }

    ghost predicate NodeInPlace(n: HashNode)
      reads this, nodes, n
    {
      && (n.next != null ==> n.next in nodes && n.next.index % BUCKETS == n.index % BUCKETS)
      && n.Linked()
    }

    static ghost function FoundIn(p: HashNode?, index: Word): Option<Word>
      reads p
    {
      if p == null then None else Lookup(p.entries, index)
    }

    constructor ()
      ensures Valid() && fresh(buckets) && fresh(nodes) && contents == map[]
    {
      buckets := new HashNode?[BUCKETS](_ => null);
      nodes := {};
      contents := map[];
    }

    method HashAddValue(index: Word, value: Word)
      requires Valid()
      modifies this, buckets
      ensures Valid() && fresh(nodes - old(nodes))
      ensures contents == old(contents)[index := value]
    {
      var newnode := new HashNode(index, value, buckets[index % BUCKETS]);
      buckets[index % BUCKETS] := newnode;
      nodes := nodes + {newnode};
      contents := contents[index := value];
      assert forall n | n in old(nodes) :: NodeInPlace(n);
      assert NodeInPlace(newnode);
    }

    /** A chain never leaves its bucket and never meets a node twice, so it ends. */
    lemma {:induction false} ChainStaysInBucket(n: HashNode)
      requires Valid() && n in nodes
      ensures forall i | 0 <= i < |n.chain| ::
                n.chain[i] in nodes && n.chain[i].chain == n.chain[i..]
                && n.chain[i].index % BUCKETS == n.index % BUCKETS
      ensures forall i, j | 0 <= i < j < |n.chain| :: n.chain[i] != n.chain[j]
      decreases |n.chain|
    {
      assert NodeInPlace(n);
      if n.next != null {
        ChainStaysInBucket(n.next);
        forall i | 0 <= i < |n.chain|
          ensures n.chain[i] in nodes && n.chain[i].chain == n.chain[i..]
                  && n.chain[i].index % BUCKETS == n.index % BUCKETS
        {
          assert i > 0 ==> n.chain[i] == n.next.chain[i - 1];
        }
      }
      forall i, j | 0 <= i < j < |n.chain|
        ensures n.chain[i] != n.chain[j]
      {
        assert |n.chain[i].chain| != |n.chain[j].chain|;
      }
    }

    /** Chains of different buckets share no node. */
    lemma ChainsAreDisjoint(m: HashNode, n: HashNode, i: nat, j: nat)
      requires Valid() && m in nodes && n in nodes && m.index % BUCKETS != n.index % BUCKETS
      requires i < |m.chain| && j < |n.chain|
      ensures m.chain[i] != n.chain[j]
    {
      ChainStaysInBucket(m);
      ChainStaysInBucket(n);
    }

    method HashGetValue(index: Word) returns (value: Option<Word>)
      requires Valid()
      ensures value == Lookup(contents, index)
    {
      var p := buckets[index % BUCKETS];
      if p == null {
        return None;
      }
      while p.index != index
        invariant p in nodes
        invariant Lookup(contents, index) == FoundIn(p, index)
        decreases |p.chain|
      {
        assert NodeInPlace(p);
        p := p.next;
        if p == null {
          return None;
        }
      }
      assert NodeInPlace(p);
      return Some(p.value);
    }
  }

  // ---------------------------------------------------------------------------------------------
  // Sequences of additions
  // ---------------------------------------------------------------------------------------------

  /** The contents after adding pairs one after the other. */
  function AddAll(t: Table, pairs: seq<(Word, Word)>): Table {
    if pairs == [] then t else AddAll(t, pairs[..|pairs| - 1])[pairs[|pairs| - 1].0 := pairs[|pairs| - 1].1]
  }

  /** Every pair turned around, as reverse mode does. */
  function Swapped(pairs: seq<(Word, Word)>): seq<(Word, Word)> {
    seq(|pairs|, i requires 0 <= i < |pairs| => (pairs[i].1, pairs[i].0))
  }

  /** `k` is the last position at which a pair for `index` was added. */
  predicate LastAt(pairs: seq<(Word, Word)>, index: Word, k: int) {
    && 0 <= k < |pairs| && pairs[k].0 == index
    && forall j | k < j < |pairs| :: pairs[j].0 != index
  }

  /** A search finds the value added last for its index. */
  lemma {:induction false} LastAdditionWins(pairs: seq<(Word, Word)>, index: Word, k: int)
    requires LastAt(pairs, index, k)
    ensures Lookup(AddAll(map[], pairs), index) == Some(pairs[k].1)
  {
    var n := |pairs| - 1;
    if k < n {
      assert LastAt(pairs[..n], index, k);
      LastAdditionWins(pairs[..n], index, k);
    }
  }

  /** A search finds something only if a pair for its index was added. */
  lemma {:induction false} FoundWasAdded(pairs: seq<(Word, Word)>, index: Word) returns (k: int)
    requires index in AddAll(map[], pairs)
    ensures LastAt(pairs, index, k)
  {
    var n := |pairs| - 1;
    if pairs[n].0 == index {
      k := n;
    } else {
      k := FoundWasAdded(pairs[..n], index);
    }
  }
}
