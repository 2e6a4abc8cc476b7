/** The finance engine's receipt chain: appending, and offline verification that names the first divergence. */
module FinanceReceipts {
  import opened HashChain

  /** What a receipt covers besides its position and the hash before it; `payload` is its canonical text. */
  datatype Body = Body(kind: string, timestamp: int, payload: string)

  datatype Fault = LinkMismatch | PayloadTamper

  datatype Verdict = Consistent(length: nat) | Divergent(at: nat, fault: Fault)

  class ReceiptChain {
    const seal: Seal<Body>
    const genesis: Hash
    var entries: seq<Link<Body>>

    ghost predicate Valid()
      reads this
    {
      Sound(seal, genesis, entries)
    }

    constructor (seal: Seal<Body>, genesis: Hash)
      ensures Valid() && entries == [] && this.seal == seal && this.genesis == genesis
    {
      this.seal, this.genesis := seal, genesis;
      entries := [];
    }

    method HeadHash() returns (head: Hash)
      ensures head == Head(genesis, entries)
    {
      if entries == [] { return genesis; }
      head := entries[|entries| - 1].hash;
    }

    method Append(kind: string, payload: string, now: int) returns (entry: Link<Body>)
      requires Valid()
      modifies this`entries
      ensures Valid()
      ensures entries == old(entries) + [entry] && entry == Next(seal, genesis, old(entries), Body(kind, now, payload))
    {
      var previous := HeadHash();
      var content := Body(kind, now, payload);
      AppendSound(seal, genesis, entries, content);
      entry := Link(|entries|, previous, content, seal(|entries|, previous, content));
      entries := entries + [entry];
    }

    /** `Consistent` exactly on sound chains; otherwise the first bad link, and what is wrong with it. */
    static method Verify(seal: Seal<Body>, genesis: Hash, entries: seq<Link<Body>>) returns (v: Verdict)
      ensures v.Consistent? <==> Sound(seal, genesis, entries)
      ensures v.Consistent? ==> v.length == |entries|
      ensures v.Divergent? ==>
        && v.at < |entries|
        && (forall i: nat | i < v.at :: GoodAt(seal, genesis, entries, i))
        && !GoodAt(seal, genesis, entries, v.at)
        && (v.fault == LinkMismatch <==> !LinkedAt(genesis, entries, v.at))
    {
      var previous := genesis;
      for i := 0 to |entries|
        invariant previous == HashBefore(genesis, entries, i)
        invariant forall j: nat | j < i :: GoodAt(seal, genesis, entries, j)
      {
        var e := entries[i];
        if e.position != i || e.previous != previous {
          assert !GoodAt(seal, genesis, entries, i);
          return Divergent(i, LinkMismatch);
        }
        var digest := seal(e.position, e.previous, e.content);
        if digest != e.hash {
          assert !GoodAt(seal, genesis, entries, i);
          return Divergent(i, PayloadTamper);
        }
        previous := digest;
      }
      v := Consistent(|entries|);
    }
  }
}
