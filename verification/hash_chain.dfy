/**
 Chains of receipts, each sealed with a hash over its position, the hash before it and its content.
 Verification accepts exactly the chains appending produces, and the head of a verified chain
 determines the whole chain.
 */
module HashChain {
  import opened Numbering

  type Hash = nat

  datatype Link<+B> = Link(position: int, previous: Hash, content: B, hash: Hash)

  type Seal<!B> = (int, Hash, B) -> Hash

  /** The seal has no collisions and never yields the hash a chain starts from. */
  ghost predicate Faithful<B(!new)>(seal: Seal<B>, genesis: Hash) {
    && (forall i, p, b, j, q, c :: seal(i, p, b) == seal(j, q, c) ==> i == j && p == q && b == c)
    && forall i, p, b :: seal(i, p, b) != genesis
  }

  /** The hash of the last of the first `n` links. */
  function HashBefore<B>(genesis: Hash, links: seq<Link<B>>, n: nat): Hash
    requires n <= |links|
  {
    if n == 0 then genesis else links[n - 1].hash
  }

  function Head<B>(genesis: Hash, links: seq<Link<B>>): Hash {
    HashBefore(genesis, links, |links|)
  }

  predicate LinkedAt<B>(genesis: Hash, links: seq<Link<B>>, i: nat)
    requires i < |links|
  {
    links[i].position == i && links[i].previous == HashBefore(genesis, links, i)
  }

  predicate SealedAt<B>(seal: Seal<B>, links: seq<Link<B>>, i: nat)
    requires i < |links|
  {
    links[i].hash == seal(links[i].position, links[i].previous, links[i].content)
  }

  predicate GoodAt<B>(seal: Seal<B>, genesis: Hash, links: seq<Link<B>>, i: nat)
    requires i < |links|
  {
    LinkedAt(genesis, links, i) && SealedAt(seal, links, i)
  }

  predicate Sound<B>(seal: Seal<B>, genesis: Hash, links: seq<Link<B>>) {
    forall i: nat | i < |links| :: GoodAt(seal, genesis, links, i)
  }

  function Next<B>(seal: Seal<B>, genesis: Hash, links: seq<Link<B>>, content: B): Link<B> {
    Link(|links|, Head(genesis, links), content, seal(|links|, Head(genesis, links), content))
  }

  /** Appending the contents one after the other, starting from nothing. */
  function Chained<B>(seal: Seal<B>, genesis: Hash, contents: seq<B>): (links: seq<Link<B>>)
    ensures |links| == |contents|
  {
    if contents == [] then []
    else
      var front := Chained(seal, genesis, contents[..|contents| - 1]);
      front + [Next(seal, genesis, front, contents[|contents| - 1])]
  }

  function Contents<B>(links: seq<Link<B>>): (contents: seq<B>)
    ensures |contents| == |links| && forall i | 0 <= i < |links| :: contents[i] == links[i].content
  {
    seq(|links|, i requires 0 <= i < |links| => links[i].content)
  }

  lemma SoundFront<B>(seal: Seal<B>, genesis: Hash, links: seq<Link<B>>)
    requires links != []
    ensures Sound(seal, genesis, links)
            <==> Sound(seal, genesis, links[..|links| - 1]) && GoodAt(seal, genesis, links, |links| - 1)
  {
    var n := |links| - 1;
    var front := links[..n];
    forall i: nat | i < n ensures GoodAt(seal, genesis, front, i) <==> GoodAt(seal, genesis, links, i) {
      assert i > 0 ==> front[i - 1] == links[i - 1];
    }
    if Sound(seal, genesis, links) {
      forall i: nat | i < n ensures GoodAt(seal, genesis, front, i) { assert GoodAt(seal, genesis, links, i); }
    }
    if Sound(seal, genesis, front) && GoodAt(seal, genesis, links, n) {
      forall i: nat | i < |links| ensures GoodAt(seal, genesis, links, i) {
        if i < n { assert GoodAt(seal, genesis, front, i); }
      }
    }
  }

  /** Appending keeps a chain sound. */
  lemma AppendSound<B>(seal: Seal<B>, genesis: Hash, links: seq<Link<B>>, content: B)
    requires Sound(seal, genesis, links)
    ensures Sound(seal, genesis, links + [Next(seal, genesis, links, content)])
  {
    var longer := links + [Next(seal, genesis, links, content)];
    assert longer[..|longer| - 1] == links;
    SoundFront(seal, genesis, longer);
  }

  /** The sound chains are exactly the ones appending produces. */
  lemma {:induction false} SoundIsChained<B>(seal: Seal<B>, genesis: Hash, links: seq<Link<B>>)
    ensures Sound(seal, genesis, links) <==> links == Chained(seal, genesis, Contents(links))
  {
    if links == [] {
      assert Contents(links) == [];
    } else {
      var n := |links| - 1;
      var front := links[..n];
      SoundIsChained(seal, genesis, front);
      SoundFront(seal, genesis, links);
      assert Contents(links)[..n] == Contents(front);
      assert links == front + [links[n]];
      var chained := Chained(seal, genesis, Contents(front));
      assert Chained(seal, genesis, Contents(links)) == chained + [Next(seal, genesis, chained, links[n].content)];
      if links == Chained(seal, genesis, Contents(links)) {
        assert front == chained;
      }
    }
  }

  /** Two sound chains with the same head are the same chain. */
  lemma {:induction false} HeadDeterminesChain<B(!new)>(seal: Seal<B>, genesis: Hash, a: seq<Link<B>>, b: seq<Link<B>>)
    requires Faithful(seal, genesis) && Sound(seal, genesis, a) && Sound(seal, genesis, b)
    requires Head(genesis, a) == Head(genesis, b)
    ensures a == b
  {
    if a == [] || b == [] {
      assert a != [] ==> GoodAt(seal, genesis, a, |a| - 1);
      assert b != [] ==> GoodAt(seal, genesis, b, |b| - 1);
    } else {
      var m, n := |a| - 1, |b| - 1;
      assert GoodAt(seal, genesis, a, m) && GoodAt(seal, genesis, b, n);
      assert a[m] == b[n];
      SoundFront(seal, genesis, a);
      SoundFront(seal, genesis, b);
      HeadDeterminesChain(seal, genesis, a[..m], b[..n]);
      assert a == a[..m] + [a[m]] && b == b[..n] + [b[n]];
    }
  }

  // ------------------------------------------------------- a seal without collisions

  function Counted(i: int, p: Hash, b: int): Hash { 1 + Pair(Folded(i), Pair(p, Folded(b))) }

  /** Over integers there is a seal without collisions, so that the laws of faithful seals say something. */
  lemma CountedIsFaithful()
    ensures Faithful(Counted, 0)
  {
    hide Pair;
    forall i: int, p: Hash, b: int, j: int, q: Hash, c: int | Counted(i, p, b) == Counted(j, q, c)
      ensures i == j && p == q && b == c
    {
      PairInjective(Folded(i), Pair(p, Folded(b)), Folded(j), Pair(q, Folded(c)));
      PairInjective(p, Folded(b), q, Folded(c));
    }
  }
}
