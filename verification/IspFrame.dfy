/**
  The packet framing of the bootloader's host tool (tools/bootloader-isp.py): send_pack stuffs and
  frames a packet, rev_pack is the automaton that finds packets in a byte stream.
*/
module IspFrame {
  import opened IspCrc

  type byte = bv8

  const PACK_HEAD: byte := 0x55
  const PACK_TAIL: byte := 0xAA
  const PACK_TRAN: byte := 0xCC
  const PACK_TRAN_55: byte := 0x05
  const PACK_TRAN_AA: byte := 0x0A
  const PACK_TRAN_CC: byte := 0x0C

  // ---------- sending ----------

  // One byte on the wire: the three control bytes are escaped.
  function Tran(dat: byte): (r: seq<byte>)
    ensures |r| > 0 && PACK_HEAD !in r && PACK_TAIL !in r
  {
    if dat == 0x55 then [PACK_TRAN, PACK_TRAN_55]
    else if dat == 0xAA then [PACK_TRAN, PACK_TRAN_AA]
    else if dat == 0xCC then [PACK_TRAN, PACK_TRAN_CC]
    else [dat]
  }

  function Stuff(p: seq<byte>): (r: seq<byte>)
    ensures PACK_HEAD !in r && PACK_TAIL !in r
  {
    if p == [] then [] else Stuff(p[..|p| - 1]) + Tran(p[|p| - 1])
  }

  lemma StuffFirst(c: byte, buf: seq<byte>)
    ensures Stuff([c] + buf[..0]) == Tran(c)
  {
    assert [c] + buf[..0] == [c] && [c][..0] == [];
    assert Stuff([]) == [];
  }

  lemma StuffOneMore(c: byte, buf: seq<byte>, i: nat)
    requires i < |buf|
    ensures Stuff([c] + buf[..i + 1]) == Stuff([c] + buf[..i]) + Tran(buf[i])
  {
    assert ([c] + buf[..i + 1])[..i + 1] == [c] + buf[..i];
  }

  // A frame carrying check value c; send_pack sends the one with c == Check(p).
  function FrameWith(c: byte, p: seq<byte>): seq<byte> {
    [PACK_HEAD] + Stuff([c] + p) + [PACK_TAIL]
  }

  function Frame(p: seq<byte>): seq<byte> { FrameWith(Check(p), p) }

  // What goes over the wire for a byte.
  function Escaped(p: seq<byte>): seq<byte> {
    if p == [] then []
    else
      (match p[0]
       case 0x55 => [0xCC, 0x05]
       case 0xAA => [0xCC, 0x0A]
       case 0xCC => [0xCC, 0x0C]
       case dat => [dat]) + Escaped(p[1..])
  }

  lemma {:induction false} StuffIsEscaped(p: seq<byte>)
    ensures Stuff(p) == Escaped(p)
  {
    if p != [] {
      StuffIsEscaped(p[..|p| - 1]);
      EscapedLast(p[..|p| - 1], p[|p| - 1]);
      assert p[..|p| - 1] + [p[|p| - 1]] == p;
    }
  }

  lemma {:induction false} EscapedLast(p: seq<byte>, dat: byte)
    ensures Escaped(p + [dat]) == Escaped(p) + Tran(dat)
  {
    if p == [] {
      assert [dat][1..] == [] && p + [dat] == [dat];
    } else {
      assert (p + [dat])[1..] == p[1..] + [dat];
      EscapedLast(p[1..], dat);
    }
  }

  // A packet on the wire.
  lemma WireIs(c: byte, p: seq<byte>)
    ensures FrameWith(c, p) == [0x55] + Escaped([c] + p) + [0xAA]
  {
    StuffIsEscaped([c] + p);
  }

  // The sending side: send_func appends to what has been sent so far.
  class Sender {
    var sent: seq<byte>

    method SendFunc(dat: byte)
      modifies this
      ensures sent == old(sent) + [dat]
    {
      sent := sent + [dat];
    }

    method SendTran(dat: byte)
      modifies this
      ensures sent == old(sent) + Tran(dat)
    {
      if dat == 0x55 {
        SendFunc(PACK_TRAN);
        SendFunc(PACK_TRAN_55);
      } else if dat == 0xAA {
        SendFunc(PACK_TRAN);
        SendFunc(PACK_TRAN_AA);
      } else if dat == 0xCC {
        SendFunc(PACK_TRAN);
        SendFunc(PACK_TRAN_CC);
      } else {
        SendFunc(dat);
      }
    }

    method SendPack(buf: seq<byte>, length0: nat)
      requires length0 <= |buf|
      modifies this
      ensures sent == old(sent) + Frame(buf[..length0])
    {
      hide Check, Tran, Stuff;
      var crcValue := Crc8L(buf, length0);
      SendFunc(PACK_HEAD);
      SendTran(crcValue);
      var i, length := 0, length0;
      StuffFirst(crcValue, buf);
      while length > 0
        invariant i + length == length0
        invariant sent == old(sent) + ([PACK_HEAD] + Stuff([crcValue] + buf[..i]))
      {
        length := length - 1;
        SendTran(buf[i]);
        StuffOneMore(crcValue, buf, i);
        i := i + 1;
      }
      SendFunc(PACK_TAIL);
    }
  }

  // ---------- receiving ----------

  // cur_length is |buf| throughout.
  datatype State = State(tran: bool, rev: bool, waitCrc: bool, crc: byte, buf: seq<byte>)

  const START: State := State(false, false, false, 0, [])

  datatype Outcome = More(state: State) | Packet(data: seq<byte>)

  // An unescaped data byte inside a packet.
  function TakeData(s: State, dat: byte, maxLength: int): State {
    if s.waitCrc then s.(crc := dat, waitCrc := false)
    else if |s.buf| < maxLength then s.(buf := s.buf + [dat])
    else s.(rev := false)
  }

  function Step(s: State, dat: byte, maxLength: int): Outcome {
    if !s.rev && dat != PACK_HEAD then More(s)
    else if !s.tran then
      if dat == PACK_HEAD then More(State(false, true, true, s.crc, []))
      else if dat == PACK_TAIL then (if Check(s.buf) == s.crc then Packet(s.buf) else More(s.(rev := false)))
      else if dat == PACK_TRAN then More(s.(tran := true))
      else More(TakeData(s, dat, maxLength))
    else
      var s := s.(tran := false);
      if dat == PACK_TRAN_55 then More(TakeData(s, 0x55, maxLength))
      else if dat == PACK_TRAN_AA then More(TakeData(s, 0xAA, maxLength))
      else if dat == PACK_TRAN_CC then More(TakeData(s, 0xCC, maxLength))
      else More(s.(rev := false))
  }

  // One call of rev_pack on a stream: the packet it returns with the number of bytes read, if the
  // stream holds one, and otherwise the state in which it waits for more.
  datatype Received = Got(data: seq<byte>, used: nat) | Waiting(state: State)

  function Receive(s: State, stream: seq<byte>, maxLength: int): (r: Received)
    ensures r.Got? ==> 0 < r.used <= |stream|
    decreases |stream|
  {
    if stream == [] then Waiting(s)
    else match Step(s, stream[0], maxLength)
      case Packet(data) => Got(data, 1)
      case More(s') =>
        match Receive(s', stream[1..], maxLength)
        case Got(data, used) => Got(data, used + 1)
        case Waiting(s'') => Waiting(s'')
  }

  function Shifted(k: nat, r: Received): Received {
    match r
    case Got(data, used) => Got(data, used + k)
    case Waiting(s) => r
  }

  lemma ReceiveAll(stream: seq<byte>, maxLength: int)
    ensures Receive(START, stream, maxLength) == Shifted(0, Receive(START, stream[0..], maxLength))
  {
    assert stream[0..] == stream;
  }

  lemma ReceiveNone(s: State, stream: seq<byte>, maxLength: int)
    ensures Receive(s, stream[|stream|..], maxLength) == Waiting(s)
  {
  }

  lemma ReceiveOne(s: State, stream: seq<byte>, k: nat, maxLength: int)
    requires k < |stream|
    ensures Shifted(k, Receive(s, stream[k..], maxLength)) ==
            match Step(s, stream[k], maxLength)
            case Packet(data) => Got(data, k + 1)
            case More(s') => Shifted(k + 1, Receive(s', stream[k + 1..], maxLength))
  {
    assert stream[k..][1..] == stream[k + 1..];
  }

  method RevPack(stream: seq<byte>, maxLength: int) returns (r: Received)
    ensures r == Receive(START, stream, maxLength)
  {
    hide Check, Receive;
    var dat: byte := 0;
    var tranMode, revMode, waitCrc := false, false, false;
    var curLength := 0;
    var crcValue: byte := 0;
    var buf: seq<byte> := [];
    var k := 0;
    ReceiveAll(stream, maxLength);
    while k < |stream|
      invariant k <= |stream| && curLength == |buf|
      invariant Receive(START, stream, maxLength) ==
                Shifted(k, Receive(State(tranMode, revMode, waitCrc, crcValue, buf), stream[k..], maxLength))
    {
      dat := stream[k];
      ghost var before := State(tranMode, revMode, waitCrc, crcValue, buf);
      ReceiveOne(before, stream, k, maxLength);
      k := k + 1;
      var needDealChar := false;
      if revMode || dat == PACK_HEAD {
        if !tranMode {
          if dat == PACK_HEAD {
            waitCrc := true;
            tranMode := false;
            curLength := 0;
            buf := [];
            revMode := true;
          } else if dat == PACK_TAIL {
            revMode := false;
            var c := Crc8L(buf, curLength);
            assert buf[..curLength] == buf;
            if c == crcValue {
              return Got(buf, k);
            }
          } else if dat == PACK_TRAN {
            tranMode := true;
          } else {
            needDealChar := true;
          }
        } else {
          tranMode := false;
          if dat == PACK_TRAN_55 {
            dat := 0x55;
            needDealChar := true;
          } else if dat == PACK_TRAN_AA {
            dat := 0xAA;
            needDealChar := true;
          } else if dat == PACK_TRAN_CC {
            dat := 0xCC;
            needDealChar := true;
          } else {
            revMode := false;
          }
        }
        if needDealChar {
          if waitCrc {
            crcValue := dat;
            waitCrc := false;
          } else if curLength < maxLength {
            buf := buf + [dat];
            curLength := curLength + 1;
          } else {
            revMode := false;
          }
        }
      }
      assert Step(before, stream[k - 1], maxLength) == More(State(tranMode, revMode, waitCrc, crcValue, buf));
    }
    ReceiveNone(State(tranMode, revMode, waitCrc, crcValue, buf), stream, maxLength);
    return Waiting(State(tranMode, revMode, waitCrc, crcValue, buf));
  }
}
