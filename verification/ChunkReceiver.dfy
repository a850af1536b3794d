/** The incremental discovery-reply receiver of `rtuart_dmx512_client.c`: octets arrive in chunks of any
    size and the outcome must not depend on how they were split. */
module ChunkReceiver {
  import opened Sequences
  import opened Octets
  import opened DiscoveryReply

  const AREA := 257

  // ----- one pass over everything received ------------------------------------------------------------

  /** Index of the first octet that is not a preamble octet. */
  function PreambleEnd(data: seq<Octet>): (p: nat)
    ensures p <= |data| && (forall i | 0 <= i < p :: data[i] == PREAMBLE) && (p < |data| ==> data[p] != PREAMBLE)
  {
    SkipPreamble(data, 0)
  }

  /** The outcome as soon as the data decides it. */
  function OnePass(data: seq<Octet>): Option<Outcome> {
    var p := PreambleEnd(data);
    if p == |data| then None
    else if data[p] != SEPARATOR then Some(Collided)
    else if |data| < p + 17 then None
    else Some(DecodePayload(data[p + 1..p + 17]))
  }

  lemma PreambleEndIs(data: seq<Octet>, p: nat)
    requires p < |data| && data[p] != PREAMBLE && forall i | 0 <= i < p :: data[i] == PREAMBLE
    ensures PreambleEnd(data) == p
  {
    SkipPreambleTo(data, 0, p);
  }

  /** With `j` preamble octets in front: nothing is decided before a foreign octet or all sixteen octets behind the
      separator, `uid` is heard exactly if these are its payload, and everything else is a collision. */
  lemma OnePassExact(data: seq<Octet>, j: nat, uid: seq<Octet>)
    requires j <= |data| && (forall i | 0 <= i < j :: data[i] == PREAMBLE) && (j < |data| ==> data[j] != PREAMBLE)
    ensures OnePass(data) == None <==> j == |data| || (data[j] == SEPARATOR && |data| < j + 17)
    ensures OnePass(data) == Some(Heard(uid)) <==>
              j + 17 <= |data| && data[j] == SEPARATOR && |uid| == UID_OCTETS && data[j + 1..j + 17] == Payload(uid)
    ensures OnePass(data) != Some(NoReply)
  {
    hide Payload, DecodePayload;
    if j < |data| {
      PreambleEndIs(data, j);
    }
    if j + 17 <= |data| && |uid| == UID_OCTETS {
      PayloadExact(data[j + 1..j + 17], uid);
    }
  }

  /** More octets never change an outcome. */
  lemma OnePassStable(data: seq<Octet>, more: seq<Octet>)
    requires OnePass(data).Some?
    ensures OnePass(data + more) == OnePass(data)
  {
    var p := PreambleEnd(data);
    PreambleEndIs(data + more, p);
    if data[p] == SEPARATOR {
      assert (data + more)[p + 1..p + 17] == data[p + 1..p + 17];
    }
  }

  // ----- the receiver ------------------------------------------------------------------------------------

  datatype State = ReceivePreamble | ReceiveData | Idle

  /** `dmx512rtuart_find_preamble`: position of the separator, -2 for a foreign octet, -1 for neither yet. */
  method FindPreamble(data: seq<Octet>) returns (p: int)
    ensures var e := PreambleEnd(data);
            p == if e == |data| then -1 else if data[e] == SEPARATOR then e else -2
  {
    var i := 0;
    while i < |data|
      invariant 0 <= i <= |data| && forall k | 0 <= k < i :: data[k] == PREAMBLE
    {
      if data[i] != PREAMBLE {
        PreambleEndIs(data, i);
        return if data[i] == SEPARATOR then i else -2;
      }
      i := i + 1;
    }
    p := -1;
  }

  /** `dmx512rtuart_complete_rdm_discovery_reply`, decoding part: finds the separator again and checks the
      sixteen octets behind it. */
  method Complete(data: seq<Octet>) returns (r: Outcome)
    requires OnePass(data).Some? && data[PreambleEnd(data)] == SEPARATOR
    ensures Some(r) == OnePass(data)
  {
    hide DecodePayload;
    var p := FindPreamble(data);
    r := CheckPayload(data, p + 1);
  }

  class Receiver {
    var state: State
    var area: seq<Octet>           // received octets; the buffer pointer is at its end
    var expected: nat              // index of the last octet needed, known once the separator was seen
    var outcome: Option<Outcome>
    ghost var received: seq<Octet> // everything that ever arrived

    constructor ()
      ensures Valid() && received == [] && state == ReceivePreamble
    {
      state, area, expected, outcome, received := ReceivePreamble, [], 0, None, [];
    }

    /** At any time the outcome is that of a single pass over everything received so far. */
    ghost predicate Valid()
      reads this
    {
      && outcome == OnePass(received)
      && (state == Idle <==> outcome.Some?)
      && (state != Idle ==> area == received)
      && (state == ReceivePreamble ==> forall i | 0 <= i < |area| :: area[i] == PREAMBLE)
      && (state == ReceiveData ==>
            var p := PreambleEnd(area);
            p < |area| <= p + 16 && area[p] == SEPARATOR && expected == p + 16)
    }

    /** `dmx512rtuart_receiver_data_available` in the discovery states. */
    method DataAvailable(chunk: seq<Octet>)
      requires Valid() && (state != Idle ==> |area| + |chunk| <= AREA)
      modifies this
      ensures Valid() && received == old(received) + chunk
      ensures old(outcome).Some? ==> outcome == old(outcome)
    {
      hide DecodePayload;
      received := received + chunk;
      if state == Idle {
        OnePassStable(old(received), chunk);
        return;
      }
      if |chunk| == 0 {
        assert received == old(received);
        return;
      }
      if state == ReceivePreamble {
        ScanPreamble(chunk);
      } else {
        PreambleEndIs(area + chunk, PreambleEnd(area));
      }
      if state != Idle {
        area := area + chunk;
      }
      if state == ReceiveData && |area| >= expected + 1 {
        Finish();
      }
    }

    /** Looks for the separator in a new chunk while only preamble octets have arrived. */
    method ScanPreamble(chunk: seq<Octet>)
      requires state == ReceivePreamble && outcome.None? && |chunk| > 0
      requires forall i | 0 <= i < |area| :: area[i] == PREAMBLE
      modifies this`state, this`expected, this`outcome
      ensures var all := area + chunk;
              var p := PreambleEnd(all);
              if p == |all| then state == ReceivePreamble && outcome.None?
              else if all[p] == SEPARATOR then
                state == ReceiveData && outcome.None? && expected == p + 16 && |area| <= p
              else state == Idle && outcome == Some(Collided)
    {
      var p := FindPreamble(chunk);
      ghost var e := PreambleEnd(chunk);
      if e < |chunk| {
        PreambleEndIs(area + chunk, |area| + e);
      }
      if p == -2 {
        outcome := Some(Collided);
        state := Idle;
      } else if p > -1 {
        expected := |area| + p + 16;
        state := ReceiveData;
      }
    }

    /** All sixteen octets are there. */
    method Finish()
      requires state == ReceiveData && outcome.None? && area == received
      requires var p := PreambleEnd(area); p + 17 <= |area| && area[p] == SEPARATOR
      modifies this`state, this`outcome
      ensures Valid() && state == Idle
    {
      var r := Complete(area);
      outcome := Some(r);
      state := Idle;
    }
  }

  /** However the octets are split into receive calls, the outcome is that of their concatenation. */
  method ReceiveAll(chunks: seq<seq<Octet>>) returns (outcome: Option<Outcome>)
    requires |Concat(chunks)| <= AREA
    ensures outcome == OnePass(Concat(chunks))
  {
    var r := new Receiver();
    var i := 0;
    while i < |chunks|
      invariant 0 <= i <= |chunks| && fresh(r) && r.Valid() && r.received == Concat(chunks[..i])
    {
      assert chunks[..i + 1][..i] == chunks[..i];
      ConcatPrefix(chunks, i + 1);
      r.DataAvailable(chunks[i]);
      i := i + 1;
    }
    assert chunks[..i] == chunks;
    outcome := r.outcome;
  }

  /** An outcome, once reached after some of the chunks, is the outcome of all. */
  lemma DecidedOnce(chunks: seq<seq<Octet>>, k: nat)
    requires k <= |chunks| && OnePass(Concat(chunks[..k])).Some?
    ensures OnePass(Concat(chunks)) == OnePass(Concat(chunks[..k]))
  {
    hide *;
    ConcatPrefix(chunks, k);
    var head := Concat(chunks[..k]);
    var tail := Concat(chunks)[|head|..];
    assert Concat(chunks) == head + tail;
    OnePassStable(head, tail);
  }

  /** What a responder sends is heard as soon as its last octet is there and no sooner. */
  lemma EncodedHeard(uid: seq<Octet>, k: nat, rest: seq<Octet>)
    requires |uid| == UID_OCTETS && k < 24
    ensures OnePass(EncodeReply(uid) + rest) == Some(Heard(uid)) && OnePass(EncodeReply(uid)[..k]) == None
  {
    hide Payload, DecodePayload;
    var d := EncodeReply(uid);
    assert forall i | 0 <= i < 7 :: d[i] == PREAMBLE;
    assert d[7] == SEPARATOR && d[8..24] == Payload(uid);
    PreambleEndIs(d, 7);
    PayloadExact(Payload(uid), uid);
    OnePassStable(d, rest);
    if k > 7 {
      PreambleEndIs(d[..k], 7);
    } else {
      assert forall i | 0 <= i < k :: d[..k][i] == PREAMBLE;
    }
  }
}
