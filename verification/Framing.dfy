/** Length-prefixed messages over a byte stream that moves any number of bytes at a time. */
module Framing {
  import opened TaskStatus
  import opened Words
  import opened Wire

  const HEADER := 8

  /** A message on the wire. */
  function Frame(payload: seq<Byte>): seq<Byte> {
    BigEndianBytes(|payload|, HEADER) + payload
  }

  /** The first message of a stream, if it is there completely, and what follows it. */
  function Deframe(stream: seq<Byte>): Option<(seq<Byte>, seq<Byte>)> {
    if |stream| < HEADER then None
    else
      var n := Value(Reverse(stream[..HEADER]));
      if n == 0 || |stream| < HEADER + n then None
      else Some((stream[HEADER..HEADER + n], stream[HEADER + n..]))
  }

  lemma HeaderValue(x: nat)
    requires x < WORD64
    ensures |BigEndianBytes(x, HEADER)| == HEADER && Value(Reverse(BigEndianBytes(x, HEADER))) == x
  {
    Powers();
    BigEndianIsReverse(x, HEADER);
    ReverseTwice(Bytes(x, HEADER));
    ValueOfBytes(x, HEADER);
  }

  /** A frame is read back exactly, whatever follows it on the stream. */
  lemma DeframeFrame(payload: seq<Byte>, rest: seq<Byte>)
    requires 0 < |payload| < WORD64
    ensures Deframe(Frame(payload) + rest) == Some((payload, rest))
  {
    HeaderValue(|payload|);
    var s := Frame(payload) + rest;
    assert s[..HEADER] == BigEndianBytes(|payload|, HEADER);
    assert s[HEADER..HEADER + |payload|] == payload && s[HEADER + |payload|..] == rest;
  }

  function FrameAll(payloads: seq<seq<Byte>>): seq<Byte> {
    if payloads == [] then [] else Frame(payloads[0]) + FrameAll(payloads[1..])
  }

  function DeframeAll(stream: seq<Byte>): seq<seq<Byte>>
    decreases |stream|
  {
    match Deframe(stream)
    case None => []
    case Some((payload, rest)) => [payload] + DeframeAll(rest)
  }

  /** A stream of messages falls apart into exactly those messages, in order. */
  lemma {:induction false} StreamRoundTrip(payloads: seq<seq<Byte>>)
    requires forall i :: 0 <= i < |payloads| ==> 0 < |payloads[i]| < WORD64
    ensures DeframeAll(FrameAll(payloads)) == payloads
  {
    if payloads != [] {
      DeframeFrame(payloads[0], FrameAll(payloads[1..]));
      StreamRoundTrip(payloads[1..]);
    }
  }

  // ---- the loops ----

  /** How one call of `read` or `write` ends: some bytes moved, at most `n`; interrupted; another
      error; or, for a read, the end of the stream. */
  datatype Io = Moved(n: nat) | Interrupted | Broken | EndOfStream

  /** How a transfer stands after a given sequence of calls. */
  datatype Progress = Waiting | Failed | Short | Complete

  class Channel {
    var buffer: seq<Byte>
  }

  function Min(a: nat, b: nat): nat { if a < b then a else b }

  predicate Undisturbed(calls: seq<Io>) {
    forall i :: 0 <= i < |calls| ==> !calls[i].Broken? && !calls[i].EndOfStream?
  }

  /** How many of the calls move at least one byte, if there is any to move. */
  function Positive(calls: seq<Io>): nat {
    if calls == [] then 0
    else
      var last := calls[|calls| - 1];
      Positive(calls[..|calls| - 1]) + (if last.Moved? && last.n > 0 then 1 else 0)
  }

  /** How many bytes the calls can move in all. */
  function Volume(calls: seq<Io>): nat {
    if calls == [] then 0
    else
      var last := calls[|calls| - 1];
      Volume(calls[..|calls| - 1]) + if last.Moved? then last.n else 0
  }

  lemma VolumeNext(calls: seq<Io>, i: nat)
    requires i < |calls|
    ensures Volume(calls[..i + 1]) == Volume(calls[..i]) + (if calls[i].Moved? then calls[i].n else 0)
    ensures Positive(calls[..i + 1]) == Positive(calls[..i]) + (if calls[i].Moved? && calls[i].n > 0 then 1 else 0)
    ensures Broken in calls[..i + 1] <==> Broken in calls[..i] || calls[i].Broken?
  {
    assert calls[..i + 1][..i] == calls[..i];
    assert calls[..i + 1] == calls[..i] + [calls[i]];
  }

  lemma {:induction false} PositiveVolume(calls: seq<Io>)
    ensures Positive(calls) <= Volume(calls)
  {
    if calls != [] {
      PositiveVolume(calls[..|calls| - 1]);
    }
  }

  lemma {:induction false} VolumeGrows(calls: seq<Io>, i: nat, j: nat)
    requires i <= j <= |calls|
    ensures Volume(calls[..i]) <= Volume(calls[..j])
    decreases j - i
  {
    if i < j {
      VolumeGrows(calls, i, j - 1);
      VolumeNext(calls, j - 1);
    }
  }

  /** The write that fails comes before all of `size` bytes are moved. */
  ghost predicate Fails(size: nat, calls: seq<Io>, k: nat) {
    k < |calls| && calls[k].Broken? && Broken !in calls[..k] && Volume(calls[..k]) < size
  }

  /** The writes before any that fails move `size` bytes. */
  ghost predicate Sends(size: nat, calls: seq<Io>) {
    exists k :: 0 <= k <= |calls| && Broken !in calls[..k] && Volume(calls[..k]) >= size
  }

  /** Send all of `data` with writes of any sizes, repeating those that are interrupted. The call
      fails if and only if some write fails before all is sent, and it completes if and only if the
      writes before any that fails move enough; what reaches the stream is what the writes moved. */
  method SendData(ch: Channel, data: seq<Byte>, calls: seq<Io>) returns (p: Progress, ghost used: nat)
    modifies ch
    ensures !p.Short? && used <= |calls| && Broken !in calls[..used]
    ensures ch.buffer == old(ch.buffer) + data[..Min(Volume(calls[..used]), |data|)]
    ensures p.Complete? <==> Volume(calls[..used]) >= |data|
    ensures p.Complete? <==> Sends(|data|, calls)
    ensures p.Failed? <==> exists k: nat :: Fails(|data|, calls, k)
    ensures p.Waiting? ==> used == |calls|
  {
    var sent := 0;
    var left := |data|;
    var i := 0;
    while sent < |data|
      invariant sent <= |data| && sent + left == |data| && i <= |calls|
      invariant sent == Min(Volume(calls[..i]), |data|) && Broken !in calls[..i]
      invariant ch.buffer == old(ch.buffer) + data[..sent]
      decreases |calls| - i
    {
      if i == |calls| {
        NoFailure(|data|, calls, i);
        NotSent(|data|, calls, i);
        return Waiting, i;
      }
      VolumeNext(calls, i);
      if calls[i].Broken? {
        assert Fails(|data|, calls, i);
        NotSent(|data|, calls, i);
        return Failed, i;
      }
      if !calls[i].Interrupted? {
        var n := if calls[i].Moved? then Min(calls[i].n, left) else 0;
        ch.buffer := ch.buffer + data[sent..sent + n];
        sent := sent + n;
        left := left - n;
      }
      i := i + 1;
    }
    NoFailure(|data|, calls, i);
    return Complete, i;
  }

  lemma NoFailure(size: nat, calls: seq<Io>, i: nat)
    requires i <= |calls| && Broken !in calls[..i] && (i == |calls| || Volume(calls[..i]) >= size)
    ensures forall k: nat :: !Fails(size, calls, k)
  {
    forall k: nat ensures !Fails(size, calls, k) {
      if k < i {
        assert calls[..i][k] == calls[k];
      } else if k <= |calls| {
        VolumeGrows(calls, i, k);
      }
    }
  }

  lemma NotSent(size: nat, calls: seq<Io>, i: nat)
    requires i <= |calls| && Volume(calls[..i]) < size && (i < |calls| ==> calls[i].Broken?)
    ensures !Sends(size, calls)
  {
    forall k | 0 <= k <= |calls| ensures Broken in calls[..k] || Volume(calls[..k]) < size {
      if k <= i {
        VolumeGrows(calls, k, i);
      } else {
        assert calls[..k][i] == calls[i];
      }
    }
  }

  /** Undisturbed writes that are enough complete the transfer, and they never fail. */
  lemma EnoughWrites(data: seq<Byte>, calls: seq<Io>, p: Progress, used: nat)
    requires used <= |calls| && Undisturbed(calls)
    requires p.Failed? <==> exists k: nat :: Fails(|data|, calls, k)
    requires p.Complete? <==> Volume(calls[..used]) >= |data|
    requires p.Waiting? ==> used == |calls|
    ensures !p.Failed? && (p.Waiting? ==> Positive(calls) < |data|)
  {
    PositiveVolume(calls);
    if p.Waiting? {
      assert calls[..used] == calls;
    }
  }

  /** A call of `read` that returns 0. */
  predicate ReturnsZero(call: Io) { call.EndOfStream? || call == Moved(0) }

  /** Every read is interrupted or moves something. */
  predicate Steady(calls: seq<Io>) {
    forall i :: 0 <= i < |calls| ==> !calls[i].Broken? && !ReturnsZero(calls[i])
  }

  /** The last error recorded after the calls is an interruption, made by one of them or left behind
      (`stale`) by whatever the thread did before. */
  predicate Interruption(stale: bool, calls: seq<Io>) { stale || Interrupted in calls }

  /** What a transfer leaves: how it stands, what it received, what is left of the stream, and whether
      the last error recorded is an interruption. */
  datatype Received = Received(p: Progress, data: seq<Byte>, rest: seq<Byte>, stale: bool)
  {
    function After(taken: seq<Byte>): Received { this.(data := taken + data) }
  }

  /** The transfer of `size` bytes, call by call: a read that returns 0 ends it with a short count,
      unless the last error recorded is an interruption. */
  function Receive(stream: seq<Byte>, size: nat, calls: seq<Io>, stale: bool): Received
    decreases |calls|
  {
    if size == 0 then Received(Complete, [], stream, stale)
    else if calls == [] then Received(Waiting, [], stream, stale)
    else if calls[0].Broken? then Received(Failed, [], stream, stale)
    else if calls[0].Interrupted? then Receive(stream, size, calls[1..], true)
    else if ReturnsZero(calls[0]) then
      if stale then Receive(stream, size, calls[1..], stale) else Received(Short, [], stream, stale)
    else
      var m := Min(Min(calls[0].n, size), |stream|);
      Receive(stream[m..], size - m, calls[1..], stale).After(stream[..m])
  }

  /** The receiving loop, with reads of any sizes. */
  method RecvData(ch: Channel, size: nat, calls: seq<Io>, stale: bool)
    returns (p: Progress, data: seq<Byte>, stale': bool)
    modifies ch
    ensures Received(p, data, ch.buffer, stale') == Receive(old(ch.buffer), size, calls, stale)
  {
    data, stale' := [], stale;
    var left := size;
    var i := 0;
    while |data| < size
      invariant |data| + left == size && i <= |calls|
      invariant Receive(old(ch.buffer), size, calls, stale) == Receive(ch.buffer, left, calls[i..], stale').After(data)
      decreases |calls| - i
    {
      if i == |calls| {
        return Waiting, data, stale';
      }
      var call := calls[i];
      assert calls[i..][0] == call && calls[i..][1..] == calls[i + 1..];
      if call.Interrupted? {
        stale' := true;
      } else if call.Broken? {
        return Failed, data, stale';
      } else if ReturnsZero(call) {
        if !stale' {
          return Short, data, stale';
        }
      } else {
        var n := Min(Min(call.n, left), |ch.buffer|);
        AfterTwice(data, ch.buffer[..n], Receive(ch.buffer[n..], left - n, calls[i + 1..], stale'));
        data := data + ch.buffer[..n];
        ch.buffer := ch.buffer[n..];
        left := left - n;
      }
      i := i + 1;
    }
    return Complete, data, stale';
  }

  lemma AfterTwice(a: seq<Byte>, b: seq<Byte>, r: Received)
    ensures r.After(b).After(a) == r.After(a + b)
  {
    assert a + (b + r.data) == a + b + r.data;
  }

  // ---- what a transfer means ----

  /** Whether a transfer goes on after the call, and how much the call moves. */
  predicate GoesOn(call: Io, stale: bool) { !call.Broken? && (ReturnsZero(call) ==> stale) }

  function Takes(call: Io, size: nat, stream: seq<Byte>): (m: nat)
    ensures m <= size && m <= |stream|
  {
    if call.Moved? then Min(Min(call.n, size), |stream|) else 0
  }

  lemma ReceiveStep(stream: seq<Byte>, size: nat, calls: seq<Io>, stale: bool)
    requires size > 0 && calls != [] && GoesOn(calls[0], stale)
    ensures var m := Takes(calls[0], size, stream);
      Receive(stream, size, calls, stale) ==
        Receive(stream[m..], size - m, calls[1..], stale || calls[0].Interrupted?).After(stream[..m])
  {
    assert stream[0..] == stream && stream[..0] == [];
    var r := Receive(stream, size, calls[1..], stale || calls[0].Interrupted?);
    assert [] + r.data == r.data;
  }

  /** Nothing is lost or reordered, and a transfer is complete exactly when all bytes arrived. */
  lemma {:induction false} ReceiveParts(stream: seq<Byte>, size: nat, calls: seq<Io>, stale: bool)
    ensures var r := Receive(stream, size, calls, stale);
      && stream == r.data + r.rest && |r.data| <= size
      && (r.p.Complete? <==> |r.data| == size)
      && (r.p.Waiting? ==> r.stale == Interruption(stale, calls))
    decreases |calls|
  {
    if size > 0 && calls != [] && GoesOn(calls[0], stale) {
      PartsLater(stream, size, calls, stale);
    } else {
      ReceiveEnds(stream, size, calls, stale);
    }
  }

  lemma ReceiveEnds(stream: seq<Byte>, size: nat, calls: seq<Io>, stale: bool)
    requires size == 0 || calls == [] || !GoesOn(calls[0], stale)
    ensures Receive(stream, size, calls, stale) == Received(
      if size == 0 then Complete else if calls == [] then Waiting else if calls[0].Broken? then Failed else Short,
      [], stream, stale)
  {
  }

  lemma {:induction false} PartsLater(stream: seq<Byte>, size: nat, calls: seq<Io>, stale: bool)
    requires size > 0 && calls != [] && GoesOn(calls[0], stale)
    ensures var r := Receive(stream, size, calls, stale);
      && stream == r.data + r.rest && |r.data| <= size
      && (r.p.Complete? <==> |r.data| == size)
      && (r.p.Waiting? ==> r.stale == Interruption(stale, calls))
    decreases |calls|, 0
  {
    var m, now := Takes(calls[0], size, stream), stale || calls[0].Interrupted?;
    ReceiveStep(stream, size, calls, stale);
    ReceiveParts(stream[m..], size - m, calls[1..], now);
    InterruptionFirst(stale, calls);
    Joins(stream, size, m, Receive(stream[m..], size - m, calls[1..], now));
  }

  lemma Joins(stream: seq<Byte>, size: nat, m: nat, r: Received)
    requires m <= |stream| && m <= size && stream[m..] == r.data + r.rest && |r.data| <= size - m
    requires r.p.Complete? <==> |r.data| == size - m
    ensures var all := r.After(stream[..m]);
      && all.p == r.p && all.rest == r.rest && all.stale == r.stale
      && stream == all.data + all.rest && |all.data| <= size && (all.p.Complete? <==> |all.data| == size)
  {
    assert stream == stream[..m] + (r.data + r.rest);
  }

  lemma InterruptionFirst(stale: bool, calls: seq<Io>)
    requires calls != []
    ensures Interruption(stale, calls) == Interruption(stale || calls[0].Interrupted?, calls[1..])
  {
    assert calls == [calls[0]] + calls[1..];
  }

  /** A transfer that still waits after some calls goes on with the next ones from where it is. */
  lemma {:induction false} ReceiveAppend(stream: seq<Byte>, size: nat, a: seq<Io>, b: seq<Io>, stale: bool)
    ensures var r := Receive(stream, size, a, stale);
      |r.data| <= size && Receive(stream, size, a + b, stale) ==
        if r.p.Waiting? then Receive(r.rest, size - |r.data|, b, r.stale).After(r.data) else r
    decreases |a|
  {
    ReceiveParts(stream, size, a, stale);
    if a == [] {
      assert a + b == b;
      NothingBefore(Receive(stream, size, b, stale));
    } else if size > 0 && GoesOn(a[0], stale) {
      ReceiveLater(stream, size, a, b, stale);
    }
  }

  lemma {:induction false} ReceiveLater(stream: seq<Byte>, size: nat, a: seq<Io>, b: seq<Io>, stale: bool)
    requires size > 0 && a != [] && GoesOn(a[0], stale)
    ensures var r := Receive(stream, size, a, stale);
      |r.data| <= size && Receive(stream, size, a + b, stale) ==
        if r.p.Waiting? then Receive(r.rest, size - |r.data|, b, r.stale).After(r.data) else r
    decreases |a|, 0
  {
    var m, now := Takes(a[0], size, stream), stale || a[0].Interrupted?;
    assert (a + b)[0] == a[0] && (a + b)[1..] == a[1..] + b;
    ReceiveStep(stream, size, a, stale);
    ReceiveStep(stream, size, a + b, stale);
    ReceiveAppend(stream[m..], size - m, a[1..], b, now);
    var r := Receive(stream[m..], size - m, a[1..], now);
    AfterTwice(stream[..m], r.data, Receive(r.rest, size - m - |r.data|, b, r.stale));
  }

  lemma NothingBefore(r: Received)
    ensures r.After([]) == r
  {
    assert [] + r.data == r.data;
  }

  /** Call number `k` is the one that the transfer still waits for after the calls before it. */
  predicate Reaches(stream: seq<Byte>, size: nat, calls: seq<Io>, stale: bool, k: nat) {
    k < |calls| && Receive(stream, size, calls[..k], stale).p.Waiting?
  }

  lemma DecidingCall(stream: seq<Byte>, size: nat, calls: seq<Io>, stale: bool, k: nat)
    requires Reaches(stream, size, calls, stale, k)
    ensures calls[k].Broken? ==> Receive(stream, size, calls, stale).p.Failed?
    ensures ReturnsZero(calls[k]) && !Interruption(stale, calls[..k]) ==> Receive(stream, size, calls, stale).p.Short?
  {
    assert calls == calls[..k] + calls[k..];
    ReceiveAppend(stream, size, calls[..k], calls[k..], stale);
    ReceiveParts(stream, size, calls[..k], stale);
  }

  lemma ReachesTail(stream: seq<Byte>, size: nat, calls: seq<Io>, stale: bool, k: nat)
    requires calls != [] && size > 0 && GoesOn(calls[0], stale)
    requires var m := Takes(calls[0], size, stream);
      Reaches(stream[m..], size - m, calls[1..], stale || calls[0].Interrupted?, k)
    ensures Reaches(stream, size, calls, stale, k + 1)
    ensures Interruption(stale || calls[0].Interrupted?, calls[1..][..k]) == Interruption(stale, calls[..k + 1])
  {
    assert calls[..k + 1] == [calls[0]] + calls[1..][..k];
    assert calls[..k + 1][1..] == calls[1..][..k];
    ReceiveStep(stream, size, calls[..k + 1], stale);
  }

  /** A transfer ends with a short count if and only if the call that it waits for returns 0 while no
      interruption has been recorded, neither by the transfer nor before it; and it fails if and only
      if that call fails. */
  lemma {:induction false} ShortIff(stream: seq<Byte>, size: nat, calls: seq<Io>, stale: bool)
    ensures Receive(stream, size, calls, stale).p.Short? <==>
            exists k: nat ::
              Reaches(stream, size, calls, stale, k) && ReturnsZero(calls[k]) && !Interruption(stale, calls[..k])
    ensures Receive(stream, size, calls, stale).p.Failed? <==>
            exists k: nat :: Reaches(stream, size, calls, stale, k) && calls[k].Broken?
    decreases |calls|
  {
    forall k: nat | Reaches(stream, size, calls, stale, k)
      ensures ReturnsZero(calls[k]) && !Interruption(stale, calls[..k]) ==> Receive(stream, size, calls, stale).p.Short?
      ensures calls[k].Broken? ==> Receive(stream, size, calls, stale).p.Failed?
    {
      DecidingCall(stream, size, calls, stale, k);
    }
    if size > 0 && calls != [] {
      if !GoesOn(calls[0], stale) {
        assert calls[..0] == [] && Reaches(stream, size, calls, stale, 0);
      } else {
        ShortLater(stream, size, calls, stale);
      }
    }
  }

  lemma {:induction false} ShortLater(stream: seq<Byte>, size: nat, calls: seq<Io>, stale: bool)
    requires calls != [] && size > 0 && GoesOn(calls[0], stale)
    ensures Receive(stream, size, calls, stale).p.Short? ==>
            exists k: nat ::
              Reaches(stream, size, calls, stale, k) && ReturnsZero(calls[k]) && !Interruption(stale, calls[..k])
    ensures Receive(stream, size, calls, stale).p.Failed? ==>
            exists k: nat :: Reaches(stream, size, calls, stale, k) && calls[k].Broken?
    decreases |calls|, 0
  {
    var m, now := Takes(calls[0], size, stream), stale || calls[0].Interrupted?;
    ReceiveStep(stream, size, calls, stale);
    ShortIff(stream[m..], size - m, calls[1..], now);
    var p := Receive(stream[m..], size - m, calls[1..], now).p;
    if p.Short? {
      var k: nat :| Reaches(stream[m..], size - m, calls[1..], now, k) && ReturnsZero(calls[1..][k]) &&
        !Interruption(now, calls[1..][..k]);
      ReachesTail(stream, size, calls, stale, k);
      assert calls[k + 1] == calls[1..][k];
    } else if p.Failed? {
      var k: nat :| Reaches(stream[m..], size - m, calls[1..], now, k) && calls[1..][k].Broken?;
      ReachesTail(stream, size, calls, stale, k);
      assert calls[k + 1] == calls[1..][k];
    }
  }

  /** Steady reads neither fail nor fall short, and enough of them that move something complete the
      transfer if the bytes are there. */
  lemma {:induction false} SteadyReceives(stream: seq<Byte>, size: nat, calls: seq<Io>, stale: bool)
    requires Steady(calls)
    ensures var r := Receive(stream, size, calls, stale);
      && (r.p.Complete? || r.p.Waiting?)
      && (r.p.Waiting? ==> Positive(calls) < size || r.rest == [])
    decreases |calls|
  {
    if calls != [] {
      PositiveFirst(calls);
      if size > 0 {
        assert !calls[0].Broken? && !ReturnsZero(calls[0]);
        assert Steady(calls[1..]);
        var m := Takes(calls[0], size, stream);
        ReceiveStep(stream, size, calls, stale);
        SteadyReceives(stream[m..], size - m, calls[1..], stale || calls[0].Interrupted?);
        if m == 0 && calls[0].Moved? {
          ReceiveParts(stream, size, calls, stale);
        }
      }
    }
  }

  lemma {:induction false} PositiveFirst(calls: seq<Io>)
    requires calls != []
    ensures Positive(calls) == (if calls[0].Moved? && calls[0].n > 0 then 1 else 0) + Positive(calls[1..])
  {
    var n := |calls| - 1;
    if n > 0 {
      PositiveFirst(calls[..n]);
      assert calls[..n][1..] == calls[1..][..n - 1];
    } else {
      assert calls[..0] == [] && calls[1..] == [];
    }
  }

  /** At the end of the stream, with an interruption left behind as the last error, the loop never
      ends: however often the read returns 0, it goes round again. */
  lemma {:induction false} SpinsAtEnd(stream: seq<Byte>, size: nat, calls: seq<Io>)
    requires size > 0 && forall i :: 0 <= i < |calls| ==> ReturnsZero(calls[i])
    ensures Receive(stream, size, calls, true) == Received(Waiting, [], stream, true)
    decreases |calls|
  {
    if calls != [] {
      SpinsAtEnd(stream, size, calls[1..]);
    }
  }

  method EncodePrefix(host: Host, size: nat) returns (prefix: seq<Byte>)
    requires size < WORD64
    ensures prefix == BigEndianBytes(size, HEADER) && |prefix| == HEADER
  {
    WireLayout(host, size);
    return Store(host, Htonll(host, size), HEADER);
  }

  /** Send one message: an empty one is refused, and what reaches the stream is always a prefix of the
      frame, all of it exactly when the call completes; the call fails if and only if a write fails
      before its part of the frame is sent. */
  method SendMessage(ch: Channel, host: Host, payload: seq<Byte>, calls1: seq<Io>, calls2: seq<Io>)
    returns (p: Progress)
    requires |payload| < WORD64
    modifies ch
    ensures payload == [] ==> p.Failed? && ch.buffer == old(ch.buffer)
    ensures payload != [] ==> (p.Failed? <==>
      || (exists k: nat :: Fails(HEADER, calls1, k))
      || (Sends(HEADER, calls1) && exists k: nat :: Fails(|payload|, calls2, k)))
    ensures payload != [] && Undisturbed(calls1) && Undisturbed(calls2) ==> p.Complete? || p.Waiting?
    ensures p.Waiting? && Undisturbed(calls1) && Undisturbed(calls2) ==>
      Positive(calls1) < HEADER || Positive(calls2) < |payload|
    ensures old(ch.buffer) <= ch.buffer && ch.buffer[|old(ch.buffer)|..] <= Frame(payload)
    ensures payload != [] ==> (p.Complete? <==> ch.buffer == old(ch.buffer) + Frame(payload))
  {
    if payload == [] {
      return Failed;
    }
    var prefix := EncodePrefix(host, |payload|);
    ghost var used, used2;
    p, used := SendData(ch, prefix, calls1);
    if Undisturbed(calls1) {
      EnoughWrites(prefix, calls1, p, used);
    }
    if !p.Complete? {
      PrefixPart(old(ch.buffer), prefix, payload, Min(Volume(calls1[..used]), HEADER));
      return p;
    }
    assert prefix[..HEADER] == prefix;
    p, used2 := SendData(ch, payload, calls2);
    if Undisturbed(calls2) {
      EnoughWrites(payload, calls2, p, used2);
    }
    FramePart(old(ch.buffer), prefix, payload, Min(Volume(calls2[..used2]), |payload|));
  }

  lemma StreamPart(before: seq<Byte>, part: seq<Byte>, frame: seq<Byte>)
    requires part <= frame
    ensures before <= before + part && (before + part)[|before|..] == part
    ensures before + part == before + frame <==> |part| == |frame|
  {
    if |part| == |frame| {
      assert part == frame;
    } else {
      assert |before + part| < |before + frame|;
    }
  }

  lemma PrefixPart(before: seq<Byte>, prefix: seq<Byte>, payload: seq<Byte>, n: nat)
    requires payload != [] && n <= |prefix|
    ensures before <= before + prefix[..n] && (before + prefix[..n])[|before|..] <= prefix + payload
    ensures before + prefix[..n] != before + (prefix + payload)
  {
    assert (prefix + payload)[..n] == prefix[..n];
    StreamPart(before, prefix[..n], prefix + payload);
  }

  lemma FramePart(before: seq<Byte>, prefix: seq<Byte>, payload: seq<Byte>, n: nat)
    requires n <= |payload|
    ensures var after := before + prefix + payload[..n];
      && before <= after && after[|before|..] <= prefix + payload
      && (after == before + (prefix + payload) <==> n == |payload|)
  {
    var part := prefix + payload[..n];
    assert before + prefix + payload[..n] == before + part;
    assert prefix + payload == part + payload[n..];
    StreamPart(before, part, prefix + payload);
  }

  /** The length that a prefix announces when the bytes that did not arrive keep their initial 0. */
  function Announced(prefix: seq<Byte>): nat
    requires |prefix| <= HEADER
  {
    Value(Reverse(prefix + Zeros(HEADER - |prefix|)))
  }

  /** The caller of a receiving side still waits, has an error, or has a buffer of `size` bytes of
      which `payload` has arrived. */
  datatype Delivery = Outstanding | Refused | Accepted(size: nat, payload: seq<Byte>)

  /** The two transfers of a message, on a stream of bytes: a short count is as good as a complete one,
      and a buffer that cannot be allocated is as bad as a failed call. */
  function Deliver(stream: seq<Byte>, calls1: seq<Io>, calls2: seq<Io>, stale: bool, canAllocate: nat -> bool)
    : (Delivery, seq<Byte>)
  {
    var r := Receive(stream, HEADER, calls1, stale);
    ReceiveParts(stream, HEADER, calls1, stale);
    if r.p.Waiting? then (Outstanding, r.rest)
    else if r.p.Failed? || Announced(r.data) == 0 || !canAllocate(Announced(r.data)) then (Refused, r.rest)
    else
      var q := Receive(r.rest, Announced(r.data), calls2, r.stale);
      (if q.p.Waiting? then Outstanding
       else if q.p.Failed? then Refused
       else Accepted(Announced(r.data), q.data), q.rest)
  }

  method DecodePrefix(host: Host, received: seq<Byte>) returns (size: nat)
    requires |received| <= HEADER
    ensures size == Announced(received)
  {
    var word := received + Zeros(HEADER - |received|);
    PrefixValue(host, word);
    return Htonll(host, Load(host, word));
  }

  /** Receive one message, on a host of either byte order. */
  method RecvMessage(ch: Channel, host: Host, calls1: seq<Io>, calls2: seq<Io>, stale: bool, canAllocate: nat -> bool)
    returns (d: Delivery)
    modifies ch
    ensures (d, ch.buffer) == Deliver(old(ch.buffer), calls1, calls2, stale, canAllocate)
  {
    ReceiveParts(ch.buffer, HEADER, calls1, stale);
    var p, received, stale' := RecvData(ch, HEADER, calls1, stale);
    if p.Waiting? {
      return Outstanding;
    }
    if p.Failed? {
      return Refused;
    }
    var size := DecodePrefix(host, received);
    if size == 0 || !canAllocate(size) {
      return Refused;
    }
    var payload;
    p, payload, stale' := RecvData(ch, size, calls2, stale');
    return if p.Waiting? then Outstanding else if p.Failed? then Refused else Accepted(size, payload);
  }

  /** When the stream begins with a complete frame and every read is interrupted or moves something,
      what is delivered is exactly its payload and what is left is exactly what follows it, however
      the reads were split; unless there is no memory for the payload, which is refused then. */
  lemma FrameDelivered(stream: seq<Byte>, calls1: seq<Io>, calls2: seq<Io>, stale: bool, canAllocate: nat -> bool)
    requires Deframe(stream).Some? && Steady(calls1) && Steady(calls2)
    ensures var (payload, rest) := Deframe(stream).value;
      var (d, left) := Deliver(stream, calls1, calls2, stale, canAllocate);
      && (d.Refused? ==> !canAllocate(|payload|))
      && (d.Accepted? ==> canAllocate(|payload|) && d == Accepted(|payload|, payload) && left == rest)
      && (d.Outstanding? ==> Positive(calls1) < HEADER || Positive(calls2) < |payload|)
  {
    var r := Receive(stream, HEADER, calls1, stale);
    ReceiveParts(stream, HEADER, calls1, stale);
    SteadyReceives(stream, HEADER, calls1, stale);
    if r.p.Complete? {
      CompletePrefix(stream, r.data, r.rest);
      PayloadReceived(stream, r.rest, Announced(r.data), calls2, r.stale);
    }
  }

  lemma PayloadReceived(stream: seq<Byte>, rest: seq<Byte>, n: nat, calls: seq<Io>, stale: bool)
    requires |stream| >= HEADER + n && rest == stream[HEADER..] && Steady(calls)
    ensures var q := Receive(rest, n, calls, stale);
      && (q.p.Complete? || q.p.Waiting?) && (q.p.Waiting? ==> Positive(calls) < n)
      && (q.p.Complete? ==> q.data == stream[HEADER..HEADER + n] && q.rest == stream[HEADER + n..])
  {
    var q := Receive(rest, n, calls, stale);
    ReceiveParts(rest, n, calls, stale);
    SteadyReceives(rest, n, calls, stale);
    if q.p.Complete? {
      assert q.data == rest[..n] && q.rest == rest[n..];
    }
  }

  lemma CompletePrefix(stream: seq<Byte>, prefix: seq<Byte>, rest: seq<Byte>)
    requires stream == prefix + rest && |prefix| == HEADER
    ensures Announced(prefix) == Value(Reverse(stream[..HEADER])) && rest == stream[HEADER..]
  {
    assert prefix + Zeros(0) == prefix == stream[..HEADER];
  }

  /** A stream that begins with no frame is accepted as a message if and only if the zero-filled prefix
      announces something for which there is memory, no call failed, and one of the two transfers
      ended with a short count. */
  lemma UnframedIff(stream: seq<Byte>, calls1: seq<Io>, calls2: seq<Io>, stale: bool, canAllocate: nat -> bool)
    requires Deframe(stream).None?
    ensures var r := Receive(stream, HEADER, calls1, stale);
      |r.data| <= HEADER && (Deliver(stream, calls1, calls2, stale, canAllocate).0.Accepted? <==>
        && Announced(r.data) > 0 && canAllocate(Announced(r.data))
        && var q := Receive(r.rest, Announced(r.data), calls2, r.stale);
          (r.p.Complete? && q.p.Short?) || (r.p.Short? && (q.p.Complete? || q.p.Short?)))
  {
    var r := Receive(stream, HEADER, calls1, stale);
    ReceiveParts(stream, HEADER, calls1, stale);
    if r.p.Complete? {
      CompletePrefix(stream, r.data, r.rest);
      ReceiveParts(r.rest, Announced(r.data), calls2, r.stale);
    }
  }

  /** Seven bytes, which hold no frame, are accepted as a message of 256 bytes of which none has
      arrived, wherever 256 bytes can be allocated. */
  lemma ShortPrefixAccepted(canAllocate: nat -> bool)
    requires canAllocate(256)
    ensures var seven := [0, 0, 0, 0, 0, 0, 1];
      && Deframe(seven).None?
      && Deliver(seven, [Moved(7), EndOfStream], [EndOfStream], false, canAllocate).0 == Accepted(256, [])
  {
    var seven, calls := [0, 0, 0, 0, 0, 0, 1], [Moved(7), EndOfStream];
    assert calls[1..] == [EndOfStream] && seven[7..] == [] && seven[..7] == seven;
    assert Receive([], 1, [EndOfStream], false) == Received(Short, [], [], false);
    assert Receive(seven, HEADER, calls, false) == Received(Short, seven, [], false);
    SevenBytes();
  }

  lemma SevenBytes()
    ensures Announced([0, 0, 0, 0, 0, 0, 1]) == 256
  {
    var word := [0, 0, 0, 0, 0, 0, 1] + Zeros(1);
    var high := [0, 0, 0, 0, 0, 0];
    assert Reverse(word) == [0] + ([1] + high);
    ValueConcat([0], [1] + high);
    ValueConcat([1], high);
    ZeroValue(high);
    assert Value([0]) == 0 && Value([1]) == 1 && Pow256(1) == 256;
  }

  lemma {:induction false} ZeroValue(s: seq<Byte>)
    requires forall i :: 0 <= i < |s| ==> s[i] == 0
    ensures Value(s) == 0
  {
    if s != [] {
      ZeroValue(s[1..]);
    }
  }

  /** Any eight bytes are read as the big-endian number they spell, on either kind of host. */
  lemma PrefixValue(host: Host, bytes: seq<Byte>)
    requires |bytes| == HEADER
    ensures Htonll(host, Load(host, bytes)) == Value(Reverse(bytes)) < WORD64
  {
    Powers();
    var x := Value(Reverse(bytes));
    BytesOfValue(Reverse(bytes));
    BigEndianIsReverse(x, HEADER);
    ReverseTwice(bytes);
    PrefixReadsBack(host, x);
  }

  /** One side frames, the other deframes: the payload arrives unchanged and nothing is left, for all
      pairs of hosts and all ways of splitting the transfers, if there is memory for the payload. */
  method Exchange(sender: Host, receiver: Host, payload: seq<Byte>, w1: seq<Io>, w2: seq<Io>, r1: seq<Io>, r2: seq<Io>,
                  stale: bool, canAllocate: nat -> bool)
    returns (sent: Progress, got: Delivery, left: seq<Byte>)
    requires 0 < |payload| < WORD64
    requires Undisturbed(w1) && Undisturbed(w2) && Steady(r1) && Steady(r2)
    ensures sent.Complete? && got.Accepted? ==> got == Accepted(|payload|, payload) && left == []
    ensures sent.Complete? && got.Refused? ==> !canAllocate(|payload|)
    ensures Positive(w1) >= HEADER && Positive(w2) >= |payload| ==> sent.Complete?
    ensures sent.Complete? && Positive(r1) >= HEADER && Positive(r2) >= |payload| ==> !got.Outstanding?
  {
    var ch := new Channel;
    ch.buffer := [];
    sent := SendMessage(ch, sender, payload, w1, w2);
    got := Outstanding;
    if sent.Complete? {
      DeframeFrame(payload, []);
      assert ch.buffer == Frame(payload) + [];
      FrameDelivered(ch.buffer, r1, r2, stale, canAllocate);
      got := RecvMessage(ch, receiver, r1, r2, stale, canAllocate);
    }
    left := ch.buffer;
  }

  // ---- the daemon's side ----

  class Message {
    var header: seq<Byte>
    var headerLength: nat
    var body: seq<Byte>
    var bodyLength: nat
    var expectedBodyLength: nat

    constructor ()
      ensures header == seq(HEADER, i => 0) && body == []
      ensures headerLength == 0 && bodyLength == 0 && expectedBodyLength == 0
    {
      header, headerLength, body, bodyLength, expectedBodyLength := seq(HEADER, i => 0), 0, [], 0, 0;
    }

    method Clear()
      modifies this
      ensures header == [] && body == [] && headerLength == 0 && bodyLength == 0 && expectedBodyLength == 0
    {
      header, body, headerLength, bodyLength, expectedBodyLength := [], [], 0, 0, 0;
    }

    /** Encode a stored response, if storing it succeeded: header and body are its frame. */
    method EncodeResponse(host: Host, stored: Option<seq<Byte>>) returns (ok: bool)
      requires stored.Some? ==> |stored.value| < WORD64
      modifies this
      ensures ok == stored.Some?
      ensures ok ==> header + body == Frame(stored.value) && headerLength == HEADER && bodyLength == |stored.value|
      ensures !ok ==> header == old(header) && body == old(body)
      ensures !ok ==> headerLength == old(headerLength) && bodyLength == old(bodyLength)
      ensures expectedBodyLength == old(expectedBodyLength)
    {
      if stored.None? {
        return false;
      }
      body := stored.value;
      bodyLength := |body|;
      WireLayout(host, bodyLength);
      header := Store(host, Htonll(host, bodyLength), HEADER);
      headerLength := HEADER;
      return true;
    }

    /** Decode a received header: the body to expect is as long as the frame says, if it can be made
        that long; otherwise the exception leaves the announced length behind. */
    method DecodeHeader(host: Host, length: nat, canResize: nat -> bool) returns (ok: bool, thrown: bool)
      requires |header| == HEADER
      modifies this
      ensures length != HEADER <==> !ok && !thrown
      ensures length == HEADER ==> headerLength == HEADER && expectedBodyLength == Value(Reverse(header))
      ensures length == HEADER ==> (ok <==> canResize(expectedBodyLength)) && (thrown <==> !ok)
      ensures ok ==> |body| == expectedBodyLength
      ensures !ok ==> body == old(body)
      ensures length != HEADER ==> headerLength == old(headerLength) && expectedBodyLength == old(expectedBodyLength)
      ensures header == old(header) && bodyLength == old(bodyLength)
    {
      if length != HEADER {
        return false, false;
      }
      headerLength := HEADER;
      PrefixValue(host, header);
      expectedBodyLength := Htonll(host, Load(host, header));
      if !canResize(expectedBodyLength) {
        return false, true;
      }
      body := if expectedBodyLength <= |body| then body[..expectedBodyLength]
              else body + Zeros(expectedBodyLength - |body|);
      return true, false;
    }
  }

  /** The daemon expects exactly the payload that a client framed. */
  lemma HeaderOfFrame(payload: seq<Byte>)
    requires |payload| < WORD64
    ensures |Frame(payload)| == HEADER + |payload| && Value(Reverse(Frame(payload)[..HEADER])) == |payload|
  {
    HeaderValue(|payload|);
    assert Frame(payload)[..HEADER] == BigEndianBytes(|payload|, HEADER);
  }
}
