/**
 Reading a request body chunk by chunk under a byte budget and a deadline, and building an object from
 its members: what comes out does not depend on how the body was cut.
 */
module BodyBounds {
  import opened Prelude

  const MAX_BODY_BYTES: nat := 128 * 1024
  const MAX_READ_SECONDS: real := 8.0

  type Bytes = seq<bv8>

  datatype Error = ReadDeadline | InvalidChunk | BodyTooLarge | ContentLengthMismatch | DuplicateJsonKey

  datatype Outcome<+T> = Done(value: T) | Failed(error: Error)

  /** The bytes of the chunks run together; what is no chunk of bytes contributes none. */
  function Joined(chunks: seq<Option<Bytes>>): Bytes {
    if chunks == [] then []
    else
      var last := chunks[|chunks| - 1];
      Joined(chunks[..|chunks| - 1]) + (if last.Some? then last.value else [])
  }

  /** What a body read in time amounts to. */
  function Judged(body: Bytes, declared: Option<nat>): Outcome<Bytes> {
    if |body| > MAX_BODY_BYTES then Failed(BodyTooLarge)
    else if declared.Some? && |body| != declared.value then Failed(ContentLengthMismatch)
    else Done(body)
  }

  lemma {:induction false} JoinedGrows(chunks: seq<Option<Bytes>>, n: nat)
    requires n <= |chunks|
    ensures |Joined(chunks[..n])| <= |Joined(chunks)|
  {
    if n == |chunks| {
      assert chunks[..n] == chunks;
    } else {
      var m := |chunks| - 1;
      assert chunks[..m][..n] == chunks[..n];
      JoinedGrows(chunks[..m], n);
    }
  }

  predicate InTime(clock: nat -> real, i: nat) { clock(i + 1) <= clock(0) + MAX_READ_SECONDS }

  /** What is wrong with the `i`-th chunk, if those before it were accepted. */
  function FaultAt(chunks: seq<Option<Bytes>>, clock: nat -> real, i: nat): Option<Error>
    requires i < |chunks|
  {
    if !InTime(clock, i) then Some(ReadDeadline)
    else if chunks[i].None? then Some(InvalidChunk)
    else if |Joined(chunks[..i + 1])| > MAX_BODY_BYTES then Some(BodyTooLarge)
    else None
  }

  /** How many bytes the chunks hold. */
  function Size(chunks: seq<Option<Bytes>>): nat {
    if chunks == [] then 0
    else
      var last := chunks[|chunks| - 1];
      Size(chunks[..|chunks| - 1]) + (if last.Some? then |last.value| else 0)
  }

  lemma {:induction false} SizeJoined(chunks: seq<Option<Bytes>>)
    ensures |Joined(chunks)| == Size(chunks)
  {
    if chunks != [] { SizeJoined(chunks[..|chunks| - 1]); }
  }

  /** What is wrong with a chunk: read after 8 seconds, no bytes, or the 128 KiB exceeded, in this order. */
  lemma FaultExactly(chunks: seq<Option<Bytes>>, clock: nat -> real, i: nat)
    requires i < |chunks|
    ensures var fault, late := FaultAt(chunks, clock, i), clock(i + 1) - clock(0) > 8.0;
      && (fault == Some(ReadDeadline) <==> late)
      && (fault == Some(InvalidChunk) <==> !late && chunks[i].None?)
      && (fault == Some(BodyTooLarge) <==> !late && chunks[i].Some? && Size(chunks[..i + 1]) > 131_072)
      && (fault == None <==> !late && chunks[i].Some? && Size(chunks[..i + 1]) <= 131_072)
  {
    hide Joined, Size;
    SizeJoined(chunks[..i + 1]);
  }

  /** What a body read in time comes to. */
  lemma JudgedExactly(chunks: seq<Option<Bytes>>, declared: Option<nat>)
    ensures var r := Judged(Joined(chunks), declared);
      && (r == Failed(BodyTooLarge) <==> Size(chunks) > 131_072)
      && (r == Failed(ContentLengthMismatch)
          <==> Size(chunks) <= 131_072 && declared.Some? && declared.value != Size(chunks))
      && (r.Done? <==> Size(chunks) <= 131_072 && (declared == None || declared == Some(Size(chunks))))
      && (r.Done? ==> r.value == Joined(chunks))
  {
    hide Joined, Size;
    SizeJoined(chunks);
  }

  /**
   `clock` gives the readings, one before the first chunk and one at each. The first faulty chunk decides; a
   body read in time is judged as a whole, however it is cut into chunks; the buffer stays within the budget.
   */
  method Accumulate(chunks: seq<Option<Bytes>>, clock: nat -> real, declared: Option<nat>) returns (r: Outcome<Bytes>)
    ensures (forall i | 0 <= i < |chunks| :: InTime(clock, i) && chunks[i].Some?) ==>
              r == Judged(Joined(chunks), declared)
    ensures (forall i | 0 <= i < |chunks| :: FaultAt(chunks, clock, i).None?) ==> r == Judged(Joined(chunks), declared)
    ensures (exists i :: 0 <= i < |chunks| && FaultAt(chunks, clock, i).Some?) ==>
              && r.Failed?
              && exists i ::
                   && 0 <= i < |chunks| && FaultAt(chunks, clock, i) == Some(r.error)
                   && forall j | 0 <= j < i :: FaultAt(chunks, clock, j).None?
  {
    var deadline := clock(0) + MAX_READ_SECONDS;
    var data: Bytes := [];
    for i := 0 to |chunks|
      invariant data == Joined(chunks[..i]) && |data| <= MAX_BODY_BYTES
      invariant forall j | 0 <= j < i :: FaultAt(chunks, clock, j).None?
    {
      assert chunks[..i + 1][..i] == chunks[..i];
      if clock(i + 1) > deadline {
        assert FaultAt(chunks, clock, i) == Some(ReadDeadline);
        return Failed(ReadDeadline);
      }
      if chunks[i].None? {
        assert FaultAt(chunks, clock, i) == Some(InvalidChunk);
        return Failed(InvalidChunk);
      }
      if |data| + |chunks[i].value| > MAX_BODY_BYTES {
        assert FaultAt(chunks, clock, i) == Some(BodyTooLarge);
        JoinedGrows(chunks, i + 1);
        return Failed(BodyTooLarge);
      }
      data := data + chunks[i].value;
      assert FaultAt(chunks, clock, i).None?;
    }
    assert chunks[..|chunks|] == chunks;
    if declared.Some? && |data| != declared.value { return Failed(ContentLengthMismatch); }
    r := Done(data);
  }

  /** An object exists exactly when no member name is repeated, and then holds every member as written. */
  method UniqueObject<V>(members: seq<(string, V)>) returns (r: Outcome<map<string, V>>)
    ensures r.Done? <==> forall i, j | 0 <= i < j < |members| :: members[i].0 != members[j].0
    ensures r.Done? ==> |r.value| == |members|
    ensures r.Done? ==>
      forall i | 0 <= i < |members| :: members[i].0 in r.value && r.value[members[i].0] == members[i].1
    ensures r.Failed? ==> r.error == DuplicateJsonKey
  {
    var out: map<string, V> := map[];
    for i := 0 to |members|
      invariant forall k :: k in out <==> exists j :: 0 <= j < i && members[j].0 == k
      invariant forall j | 0 <= j < i :: members[j].0 in out && out[members[j].0] == members[j].1
      invariant forall j, k | 0 <= j < k < i :: members[j].0 != members[k].0
      invariant |out| == i
    {
      var (name, value) := members[i];
      if name in out { return Failed(DuplicateJsonKey); }
      out := out[name := value];
    }
    r := Done(out);
  }
}
