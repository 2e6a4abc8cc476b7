/**
 The receipt chains of matters and obligations: every session's hashes are chained without end, while
 only the last 500 receipts are retained.
 */
module Counsel {
  import opened Prelude
  import opened BoundedLogs

  const GENESIS: string := "GENESIS"
  const RETAINED: nat := 500

  datatype Receipt = Receipt(step: string, hash: string, previous: string, timestamp: int)

  function LastHash(log: seq<Receipt>): string {
    if log == [] then GENESIS else log[|log| - 1].hash
  }

  predicate LinkedAt(log: seq<Receipt>, i: nat)
    requires i < |log|
  {
    log[i].previous == (if i == 0 then GENESIS else log[i - 1].hash)
  }

  /** Every receipt names the hash before it. */
  predicate Linked(log: seq<Receipt>) {
    forall i: nat | i < |log| :: LinkedAt(log, i)
  }

  /** The text a receipt's hash is taken of. */
  function Sealed(previous: string, step: string, payload: string): string {
    previous + "|" + step + "|" + payload
  }

  function LogOf(logs: map<string, seq<Receipt>>, session: string): seq<Receipt> {
    if session in logs then logs[session] else []
  }

  class Chains {
    const hash: string -> string
    var previousHash: map<string, string>
    var retained: map<string, seq<Receipt>>
    ghost var logs: map<string, seq<Receipt>>

    ghost predicate Valid()
      reads this
    {
      && previousHash.Keys == retained.Keys == logs.Keys
      && forall s | s in logs ::
           && Linked(logs[s])
           && previousHash[s] == LastHash(logs[s])
           && retained[s] == Last(logs[s], RETAINED)
    }

    constructor (hash: string -> string)
      ensures Valid() && logs == map[] && this.hash == hash
    {
      this.hash := hash;
      previousHash, retained, logs := map[], map[], map[];
    }

    /** One receipt more on the session's log; the other sessions stay as they are. */
    method Chain(session: string, step: string, payload: string, now: int) returns (receipt: Receipt)
      requires Valid()
      modifies this
      ensures Valid()
      ensures logs == old(logs)[session := LogOf(old(logs), session) + [receipt]]
      ensures receipt.previous == LastHash(LogOf(old(logs), session)) && receipt.step == step
      ensures receipt.hash == hash(Sealed(receipt.previous, step, payload)) && receipt.timestamp == now
    {
      hide Linked, Last, Pushed, Sealed, LastHash;
      NothingLogged();
      ghost var log := LogOf(logs, session);
      var previous := if session in previousHash then previousHash[session] else GENESIS;
      var digest := hash(Sealed(previous, step, payload));
      receipt := Receipt(step, digest, previous, now);
      var queue := if session in retained then retained[session] else [];
      PushedIsLast(log, receipt, RETAINED);
      LinkedGrows(log, receipt);
      previousHash := previousHash[session := digest];
      retained := retained[session := Pushed(queue, receipt, RETAINED)];
      logs := logs[session := log + [receipt]];
    }
  }

  lemma NothingLogged()
    ensures LastHash([]) == GENESIS && Linked([]) && Last<Receipt>([], RETAINED) == []
  {
  }

  lemma LinkedGrows(log: seq<Receipt>, receipt: Receipt)
    requires Linked(log) && receipt.previous == LastHash(log)
    ensures Linked(log + [receipt]) && LastHash(log + [receipt]) == receipt.hash
  {
    var longer := log + [receipt];
    forall i: nat | i < |longer| ensures LinkedAt(longer, i) {
      if i < |log| { assert LinkedAt(log, i); }
    }
  }

  /**
   What is retained of a chain is chained: each receipt names the hash of the one before it, and the
   first one the hash of the receipt dropped last.
   */
  lemma TailIsLinked(log: seq<Receipt>, k: nat)
    requires Linked(log) && k <= |log|
    ensures var tail := log[k..];
      && (forall i | 0 < i < |tail| :: tail[i].previous == tail[i - 1].hash)
      && (tail != [] ==> tail[0].previous == LastHash(log[..k]) && tail[|tail| - 1].hash == LastHash(log))
  {
    var tail := log[k..];
    assert forall i | 0 <= i < |tail| :: tail[i] == log[k + i];
    forall i | 0 < i < |tail| ensures tail[i].previous == tail[i - 1].hash {
      assert LinkedAt(log, k + i);
    }
    if tail != [] {
      assert LinkedAt(log, k);
      assert k > 0 ==> log[..k][k - 1] == log[k - 1];
    }
  }

  /**
   Of each session's log the last 500 receipts are retained, chained from the hash of the last one dropped or from
   the start; the hash kept for the next receipt is that of the last one.
   */
  lemma RetainedExactly(chains: Chains, session: string)
    requires chains.Valid() && session in chains.logs
    ensures session in chains.retained && session in chains.previousHash
    ensures var log, kept := chains.logs[session], chains.retained[session];
      && kept == (if |log| <= 500 then log else log[|log| - 500..])
      && (forall i | 0 < i < |kept| :: kept[i].previous == kept[i - 1].hash)
      && (kept != [] ==> kept[0].previous == if |log| <= 500 then "GENESIS" else log[|log| - 501].hash)
      && chains.previousHash[session] == if log == [] then "GENESIS" else log[|log| - 1].hash
  {
    var log := chains.logs[session];
    TailIsLinked(log, |log| - |chains.retained[session]|);
  }

  // -------------------------------------------------------- what a hash binds

  predicate Plain(s: string) { '|' !in s }

  lemma {:induction false} FirstField(a: string, b: string, c: string, d: string)
    requires Plain(a) && Plain(b) && a + "|" + c == b + "|" + d
    ensures a == b && c == d
  {
    var s, t := a + "|" + c, b + "|" + d;
    assert s[0] == (if a == "" then '|' else a[0]) && t[0] == (if b == "" then '|' else b[0]);
    assert a == "" <==> b == "";
    if a == "" {
      assert c == s[1..] && d == t[1..];
    } else {
      assert s[1..] == a[1..] + "|" + c && t[1..] == b[1..] + "|" + d;
      FirstField(a[1..], b[1..], c, d);
      assert a == [a[0]] + a[1..] && b == [b[0]] + b[1..];
    }
  }

  /** As long as hashes and step names hold no separator, the hashed text determines its three parts. */
  lemma SealedBinds(p: string, step: string, payload: string, q: string, other: string, text: string)
    requires Plain(p) && Plain(q) && Plain(step) && Plain(other)
    requires Sealed(p, step, payload) == Sealed(q, other, text)
    ensures p == q && step == other && payload == text
  {
    assert Sealed(p, step, payload) == p + "|" + (step + "|" + payload);
    assert Sealed(q, other, text) == q + "|" + (other + "|" + text);
    FirstField(p, q, step + "|" + payload, other + "|" + text);
    FirstField(step, other, payload, text);
  }
}
