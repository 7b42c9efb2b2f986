/**
  What the two ends of the bootloader's link achieve together: frames get through, the receiver
  resynchronises after any noise, and it accepts nothing that is not a frame.
*/
module IspLink {
  import opened IspCrc
  import opened IspFrame

  // ---------- a session: rev_pack called again and again on one stream ----------

  function Deliver(s: State, stream: seq<byte>, maxLength: int): seq<seq<byte>>
    decreases |stream|
  {
    if stream == [] then []
    else match Step(s, stream[0], maxLength)
      case Packet(data) => [data] + Deliver(START, stream[1..], maxLength)
      case More(s') => Deliver(s', stream[1..], maxLength)
  }

  function After(s: State, stream: seq<byte>, maxLength: int): State
    decreases |stream|
  {
    if stream == [] then s
    else match Step(s, stream[0], maxLength)
      case Packet(data) => After(START, stream[1..], maxLength)
      case More(s') => After(s', stream[1..], maxLength)
  }

  // A session is what calling rev_pack on the stream, then on the rest of it, and so on, returns.
  lemma {:induction false} SessionIsRepeatedCalls(s: State, stream: seq<byte>, maxLength: int)
    ensures match Receive(s, stream, maxLength)
            case Got(data, used) =>
              Deliver(s, stream, maxLength) == [data] + Deliver(START, stream[used..], maxLength) &&
              After(s, stream, maxLength) == After(START, stream[used..], maxLength)
            case Waiting(s') => Deliver(s, stream, maxLength) == [] && After(s, stream, maxLength) == s'
    decreases |stream|
  {
    hide Step;
    if stream != [] {
      match Step(s, stream[0], maxLength)
      case Packet(data) =>
      case More(s') =>
        SessionIsRepeatedCalls(s', stream[1..], maxLength);
        match Receive(s', stream[1..], maxLength)
        case Got(data, used) => assert stream[1..][used..] == stream[used + 1..];
        case Waiting(_) =>
    }
  }

  lemma {:induction false} Concat(s: State, a: seq<byte>, b: seq<byte>, maxLength: int)
    ensures Deliver(s, a + b, maxLength) == Deliver(s, a, maxLength) + Deliver(After(s, a, maxLength), b, maxLength)
    ensures After(s, a + b, maxLength) == After(After(s, a, maxLength), b, maxLength)
    decreases |a|
  {
    hide Step;
    if a == [] {
      assert a + b == b;
    } else {
      assert (a + b)[0] == a[0] && (a + b)[1..] == a[1..] + b;
      match Step(s, a[0], maxLength)
      case Packet(data) => Concat(START, a[1..], b, maxLength);
      case More(s') => Concat(s', a[1..], b, maxLength);
    }
  }

  lemma One(s: State, b: byte, maxLength: int)
    ensures match Step(s, b, maxLength)
            case Packet(data) => Deliver(s, [b], maxLength) == [data] && After(s, [b], maxLength) == START
            case More(s') => Deliver(s, [b], maxLength) == [] && After(s, [b], maxLength) == s'
  {
    hide Step;
    assert [b][1..] == [];
  }

  // ---------- feeding one frame ----------

  // Outside a packet everything but a HEAD is ignored.
  lemma {:induction false} Idle(s: State, stream: seq<byte>, maxLength: int)
    requires !s.rev && PACK_HEAD !in stream
    ensures Deliver(s, stream, maxLength) == [] && After(s, stream, maxLength) == s
    decreases |stream|
  {
    if stream != [] {
      assert stream[0] in stream;
      Idle(s, stream[1..], maxLength);
    }
  }

  lemma FeedByte(s: State, dat: byte, maxLength: int)
    requires s.rev && !s.tran
    ensures Deliver(s, Tran(dat), maxLength) == [] && After(s, Tran(dat), maxLength) == TakeData(s, dat, maxLength)
  {
    hide TakeData, Deliver, After;
    var w := Tran(dat);
    One(s, w[0], maxLength);
    if |w| == 2 {
      assert w == [w[0]] + [w[1]];
      One(s.(tran := true), w[1], maxLength);
      Concat(s, [w[0]], [w[1]], maxLength);
      assert s.(tran := true).(tran := false) == s;
    } else {
      assert w == [w[0]];
    }
  }

  predicate Fits(p: seq<byte>, maxLength: int) { p == [] || |p| <= maxLength }

  lemma {:induction false} FeedData(s: State, p: seq<byte>, maxLength: int)
    requires s.rev && !s.tran && !s.waitCrc && s.buf == []
    ensures Deliver(s, Stuff(p), maxLength) == []
    ensures var s' := After(s, Stuff(p), maxLength);
            if Fits(p, maxLength) then s' == s.(buf := p) else !s'.rev && !s'.tran
    decreases |p|
  {
    hide Deliver, After, Step;
    if p == [] {
      Nothing(s, maxLength);
    } else {
      var q, last := p[..|p| - 1], p[|p| - 1];
      FeedData(s, q, maxLength);
      Concat(s, Stuff(q), Tran(last), maxLength);
      var s' := After(s, Stuff(q), maxLength);
      if Fits(q, maxLength) {
        assert q + [last] == p;
        FeedByte(s', last, maxLength);
      } else {
        Idle(s', Tran(last), maxLength);
      }
    }
  }

  lemma Nothing(s: State, maxLength: int)
    ensures Deliver(s, [], maxLength) == [] && After(s, [], maxLength) == s
  {
  }

  lemma {:induction false} StuffConcat(c: byte, p: seq<byte>)
    ensures Stuff([c] + p) == Tran(c) + Stuff(p)
    decreases |p|
  {
    hide Tran;
    if p == [] {
      assert [c] + p == [c] && [c][..0] == [];
    } else {
      var q, last := p[..|p| - 1], p[|p| - 1];
      StuffConcat(c, q);
      assert q + [last] == p && ([c] + p)[..|p|] == [c] + q && ([c] + p)[|p|] == last;
      assert Stuff([c] + p) == Stuff([c] + q) + Tran(last);
    }
  }

  // A frame that arrives outside an escape yields its data exactly if the check value is right and there is room.
  lemma FeedFrame(s: State, c: byte, p: seq<byte>, maxLength: int)
    requires !s.tran
    ensures Deliver(s, FrameWith(c, p), maxLength) == if c == Check(p) && Fits(p, maxLength) then [p] else []
    ensures !After(s, FrameWith(c, p), maxLength).tran
  {
    hide Deliver, After, Tran, Stuff, Check;
    var s0 := State(false, true, true, s.crc, []);
    var s1 := s0.(crc := c, waitCrc := false);
    var s2 := After(s1, Stuff(p), maxLength);
    One(s, PACK_HEAD, maxLength);
    FeedByte(s0, c, maxLength);
    FeedData(s1, p, maxLength);
    One(s2, PACK_TAIL, maxLength);
    StuffConcat(c, p);
    assert FrameWith(c, p) == [PACK_HEAD] + (Tran(c) + (Stuff(p) + [PACK_TAIL]));
    Concat(s, [PACK_HEAD], Tran(c) + (Stuff(p) + [PACK_TAIL]), maxLength);
    Concat(s0, Tran(c), Stuff(p) + [PACK_TAIL], maxLength);
    Concat(s1, Stuff(p), [PACK_TAIL], maxLength);
  }

  // A frame that arrives inside an escape is lost, but ends the escape.
  lemma LoseFrame(s: State, c: byte, p: seq<byte>, maxLength: int)
    requires s.tran
    ensures Deliver(s, FrameWith(c, p), maxLength) == [] && !After(s, FrameWith(c, p), maxLength).tran
  {
    hide Deliver, After, Tran, Stuff, Check;
    One(s, PACK_HEAD, maxLength);
    var s0 := s.(tran := false, rev := false);
    Idle(s0, Stuff([c] + p) + [PACK_TAIL], maxLength);
    assert FrameWith(c, p) == [PACK_HEAD] + (Stuff([c] + p) + [PACK_TAIL]);
    Concat(s, [PACK_HEAD], Stuff([c] + p) + [PACK_TAIL], maxLength);
  }

  // ---------- frames get through ----------

  function Frames(ps: seq<seq<byte>>): seq<byte> {
    if ps == [] then [] else Frame(ps[0]) + Frames(ps[1..])
  }

  function Fitting(ps: seq<seq<byte>>, maxLength: int): seq<seq<byte>> {
    if ps == [] then []
    else (if Fits(ps[0], maxLength) then [ps[0]] else []) + Fitting(ps[1..], maxLength)
  }

  // From any state, a run of frames is delivered completely and in order, oversized ones aside, except
  // that the first is lost if the receiver stands in the middle of an escape.
  lemma {:induction false} FramesDelivered(s: State, ps: seq<seq<byte>>, maxLength: int)
    ensures Deliver(s, Frames(ps), maxLength) == Fitting(if s.tran && ps != [] then ps[1..] else ps, maxLength)
    ensures !s.tran || ps != [] ==> !After(s, Frames(ps), maxLength).tran
    decreases |ps|
  {
    hide Deliver, After, Frame, Fits;
    if ps == [] {
      Nothing(s, maxLength);
    } else {
      FrameIsFrameWith(ps[0]);
      if s.tran {
        LoseFrame(s, Check(ps[0]), ps[0], maxLength);
      } else {
        FeedFrame(s, Check(ps[0]), ps[0], maxLength);
      }
      Concat(s, Frame(ps[0]), Frames(ps[1..]), maxLength);
      FramesDelivered(After(s, Frame(ps[0]), maxLength), ps[1..], maxLength);
    }
  }

  lemma FrameIsFrameWith(p: seq<byte>)
    ensures Frame(p) == FrameWith(Check(p), p)
  {
  }

  // Resynchronisation: whatever came before, of two frames in a row the second is always delivered.
  lemma NoiseThenFrames(noise: seq<byte>, ps: seq<seq<byte>>, maxLength: int)
    ensures var s := After(START, noise, maxLength);
            Deliver(START, noise + Frames(ps), maxLength) ==
            Deliver(START, noise, maxLength) + Fitting(if s.tran && ps != [] then ps[1..] else ps, maxLength)
  {
    Concat(START, noise, Frames(ps), maxLength);
    FramesDelivered(After(START, noise, maxLength), ps, maxLength);
  }

  // A frame whose payload is hit in one byte is never delivered.
  lemma CorruptionRejected(s: State, p: seq<byte>, i: nat, b: byte, maxLength: int)
    requires !s.tran && i < |p| && b != p[i]
    ensures Deliver(s, FrameWith(Check(p), p[i := b]), maxLength) == []
  {
    OneByteDetected(p, i, b);
    FeedFrame(s, Check(p), p[i := b], maxLength);
  }

  // ---------- nothing else gets through ----------

  // What the receiver must have read since the last HEAD to be in state s inside a packet.
  function Open(s: State): seq<byte> {
    (if s.waitCrc then [] else Stuff([s.crc] + s.buf)) + (if s.tran then [PACK_TRAN] else [])
  }

  // Holds of every state reachable from START, where t is all that has been read in this call.
  ghost predicate History(t: seq<byte>, s: State, maxLength: int) {
    (s.waitCrc ==> s.buf == []) && (s.rev ==> Fits(s.buf, maxLength)) &&
    if s.rev then exists pre :: OpenedAt(t, pre, s, maxLength) else !s.tran
  }

  // The HEAD that opened the packet stands right after pre and was not read inside an escape.
  ghost predicate OpenedAt(t: seq<byte>, pre: seq<byte>, s: State, maxLength: int) {
    t == pre + [PACK_HEAD] + Open(s) &&
    Receive(START, pre, maxLength).Waiting? && !Receive(START, pre, maxLength).state.tran
  }

  lemma StuffSnoc(p: seq<byte>, b: byte)
    ensures Stuff(p + [b]) == Stuff(p) + Tran(b)
  {
    assert (p + [b])[..|p|] == p;
  }

  lemma StuffOne(b: byte)
    ensures Stuff([b]) == Tran(b)
  {
    var e: seq<byte> := [];
    StuffSnoc(e, b);
    assert e + [b] == [b];
  }

  lemma OpenGrows(s: State, dat: byte, maxLength: int)
    requires s.rev && !s.tran && (s.waitCrc ==> s.buf == [])
    ensures var s' := TakeData(s, dat, maxLength); s'.rev ==> Open(s') == Open(s) + Tran(dat)
  {
    hide Tran, Stuff;
    if s.waitCrc {
      StuffOne(dat);
      assert [dat] + s.buf == [dat];
      assert Stuff([dat] + s.buf) + [] == Stuff([dat]);
    } else {
      assert [s.crc] + (s.buf + [dat]) == ([s.crc] + s.buf) + [dat];
      StuffSnoc([s.crc] + s.buf, dat);
      assert Stuff([s.crc] + s.buf) + [] == Stuff([s.crc] + s.buf);
    }
  }

  lemma Longer(t: seq<byte>, pre: seq<byte>, open: seq<byte>, wire: seq<byte>)
    requires t == pre + [PACK_HEAD] + open
    ensures t + wire == pre + [PACK_HEAD] + (open + wire)
  {
  }

  lemma TakeDataHistory(t: seq<byte>, s: State, dat: byte, wire: seq<byte>, maxLength: int)
    requires s.rev && !s.tran && History(t, s, maxLength) && wire == Tran(dat)
    ensures History(t + wire, TakeData(s, dat, maxLength), maxLength)
  {
    hide Tran, Receive, Open;
    OpenGrows(s, dat, maxLength);
    var s' := TakeData(s, dat, maxLength);
    var pre :| OpenedAt(t, pre, s, maxLength);
    if s'.rev {
      Longer(t, pre, Open(s), wire);
      assert OpenedAt(t + wire, pre, s', maxLength);
    }
  }

  lemma StepHistory(t: seq<byte>, s: State, b: byte, maxLength: int)
    requires Receive(START, t, maxLength) == Waiting(s) && History(t, s, maxLength) && Step(s, b, maxLength).More?
    ensures History(t + [b], Step(s, b, maxLength).state, maxLength)
  {
    hide Receive, Stuff, Check;
    var s' := Step(s, b, maxLength).state;
    if !s.rev && b != PACK_HEAD {
    } else if !s.tran {
      if b == PACK_HEAD {
        assert Open(s') == [];
        assert OpenedAt(t + [b], t, s', maxLength);
      } else if b == PACK_TAIL {
      } else if b == PACK_TRAN {
        var pre :| OpenedAt(t, pre, s, maxLength);
        assert OpenedAt(t + [b], pre, s', maxLength);
      } else {
        TakeDataHistory(t, s, b, [b], maxLength);
      }
    } else {
      var pre :| OpenedAt(t, pre, s, maxLength);
      var u, r := pre + [PACK_HEAD] + Open(s.(tran := false)), s.(tran := false);
      assert t == u + [PACK_TRAN];
      assert OpenedAt(u, pre, r, maxLength);
      assert t + [b] == u + [PACK_TRAN, b];
      if b == PACK_TRAN_55 {
        TakeDataHistory(u, r, 0x55, [PACK_TRAN, b], maxLength);
      } else if b == PACK_TRAN_AA {
        TakeDataHistory(u, r, 0xAA, [PACK_TRAN, b], maxLength);
      } else if b == PACK_TRAN_CC {
        TakeDataHistory(u, r, 0xCC, [PACK_TRAN, b], maxLength);
      }
    }
  }

  lemma {:induction false} ReceiveSnoc(s: State, t: seq<byte>, b: byte, maxLength: int)
    ensures match Receive(s, t, maxLength)
            case Got(data, used) => Receive(s, t + [b], maxLength) == Got(data, used)
            case Waiting(s') =>
              Receive(s, t + [b], maxLength) ==
              match Step(s', b, maxLength) case Packet(data) => Got(data, |t| + 1) case More(s'') => Waiting(s'')
    decreases |t|
  {
    hide Step;
    if t == [] {
      assert t + [b] == [b] && [b][1..] == [];
    } else {
      assert (t + [b])[0] == t[0] && (t + [b])[1..] == t[1..] + [b];
      match Step(s, t[0], maxLength)
      case Packet(_) =>
      case More(s') => ReceiveSnoc(s', t[1..], b, maxLength);
    }
  }

  lemma HistoryStart(maxLength: int)
    ensures History([], START, maxLength)
  {
  }

  lemma {:induction false} EveryStateHasHistory(t: seq<byte>, maxLength: int)
    requires Receive(START, t, maxLength).Waiting?
    ensures History(t, Receive(START, t, maxLength).state, maxLength)
    decreases |t|
  {
    hide Step, History;
    if t == [] {
      HistoryStart(maxLength);
    } else {
      var u, b := t[..|t| - 1], t[|t| - 1];
      assert t == u + [b];
      ReceiveSnoc(START, u, b, maxLength);
      EveryStateHasHistory(u, maxLength);
      StepHistory(u, Receive(START, u, maxLength).state, b, maxLength);
    }
  }

  lemma {:induction false} GotAtEnd(s: State, stream: seq<byte>, maxLength: int)
    requires Receive(s, stream, maxLength).Got?
    ensures var r := Receive(s, stream, maxLength);
            var u := stream[..r.used - 1];
            Receive(s, u, maxLength).Waiting? &&
            Step(Receive(s, u, maxLength).state, stream[r.used - 1], maxLength) == Packet(r.data)
    decreases |stream|
  {
    hide Step;
    match Step(s, stream[0], maxLength)
    case Packet(_) =>
    case More(s') =>
      GotAtEnd(s', stream[1..], maxLength);
      var r := Receive(s, stream, maxLength);
      var u := stream[..r.used - 1];
      assert u[0] == stream[0] && u[1..] == stream[1..][..r.used - 2];
  }

  // Bytes that end with this frame, opened by a HEAD that was not read inside an escape.
  ghost predicate EndsInFrame(t: seq<byte>, p: seq<byte>, maxLength: int) {
    exists pre :: t == pre + Frame(p) && Receive(START, pre, maxLength).Waiting? &&
      !Receive(START, pre, maxLength).state.tran
  }

  lemma FrameBeforeTail(t: seq<byte>, p: seq<byte>, maxLength: int)
    requires EndsInFrame(t, p, maxLength)
    ensures |t| >= 2 && t[|t| - 2] != PACK_HEAD
  {
    var pre :| t == pre + Frame(p);
    FrameEnds(p);
    assert t[|t| - 2] == Frame(p)[|Frame(p)| - 2];
  }

  // Whatever rev_pack returns fits, and what it has just read is byte for byte the frame that send_pack
  // sends for it - unless it is the empty packet, closed by a TAIL that directly follows its HEAD.
  lemma ReceivedIsFrame(stream: seq<byte>, maxLength: int)
    requires Receive(START, stream, maxLength).Got?
    ensures var r := Receive(START, stream, maxLength);
            Fits(r.data, maxLength) && r.used >= 2 &&
            (EndsInFrame(stream[..r.used], r.data, maxLength) <==> stream[r.used - 2] != PACK_HEAD) &&
            (stream[r.used - 2] == PACK_HEAD ==> r.data == [])
  {
    hide Receive, Stuff, Check;
    GotAtEnd(START, stream, maxLength);
    var r := Receive(START, stream, maxLength);
    var u := stream[..r.used - 1];
    var s := Receive(START, u, maxLength).state;
    EveryStateHasHistory(u, maxLength);
    var pre :| OpenedAt(u, pre, s, maxLength);
    assert stream[..r.used] == u + [PACK_TAIL];
    if s.waitCrc {
      assert u == pre + [PACK_HEAD];
      assert u[|u| - 1] == PACK_HEAD;
      if EndsInFrame(stream[..r.used], r.data, maxLength) {
        FrameBeforeTail(stream[..r.used], r.data, maxLength);
      }
    } else {
      assert stream[..r.used] == pre + FrameWith(s.crc, s.buf);
      FrameEnds(r.data);
      assert stream[..r.used][r.used - 2] == Frame(r.data)[|Frame(r.data)| - 2];
    }
  }

  lemma FrameEnds(p: seq<byte>)
    ensures |Frame(p)| >= 3 && Frame(p)[|Frame(p)| - 2] != PACK_HEAD
  {
    hide Check;
    var w := Stuff([Check(p)] + p);
    StuffConcat(Check(p), p);
    assert |w| > 0;
    assert w[|w| - 1] in w;
  }

  // The exception is real: HEAD TAIL alone is taken for an empty packet, although send_pack never sends it.
  lemma BareHeadTailAccepted(maxLength: int)
    ensures Receive(START, [PACK_HEAD, PACK_TAIL], maxLength) == Got([], 2)
    ensures forall p :: Frame(p) != [PACK_HEAD, PACK_TAIL]
  {
    forall p ensures Frame(p) != [PACK_HEAD, PACK_TAIL] {
      FrameEnds(p);
    }
    assert [PACK_HEAD, PACK_TAIL][1..] == [PACK_TAIL];
    assert Check([]) == 0;
  }
}
