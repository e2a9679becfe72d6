/** A scripted stand-in for the transport and the secure element behind
    it. It is not part of the wallet's source: it is the collaborator the
    device apps talk to, written down so that every command they issue can
    be stated against a trace. The device answers from a buffer state that
    the scenario fixes beforehand. */
module Transport {
  import opened Wrappers
  import opened Bytes
  import opened Apdu

  /** What the device holds and how it will answer. */
  datatype DeviceState = DeviceState(
    dataLength: uint16,               // reported by GET_DATA_BUFFER_STATE
    dataType: byte,                   // reported by GET_DATA_BUFFER_STATE
    blockSize: byte,                  // reported by GET_DATA_BUFFER_STATE
    blockCount: byte,                 // reported by GET_DATA_BUFFER_STATE
    emptyType: byte,                  // the data type a cleared buffer reports
    blocks: map<int, seq<byte>>,      // blocks written so far, by block number
    signAnswers: seq<seq<byte>>,      // the answer to SIGN_SINGLE for input p1
    appConfig: seq<byte>,             // the answer to GET_APP_CONFIG
    refused: map<int, int>)           // instructions answered with this status word

  function ReportedState(s: DeviceState): BufferState
  {
    BufferState(s.dataLength, s.dataType, s.blockSize, s.blockCount)
  }

  /** Block `b` as the device holds it: what was written, or zeros. */
  function StoredBlock(s: DeviceState, b: int): seq<byte>
  {
    if b in s.blocks then s.blocks[b] else Zeros(s.blockSize)
  }

  /** The device's answer to a command. */
  function Respond(s: DeviceState, c: Command): Result<seq<byte>>
  {
    if c.ins in s.refused then Err(DeviceError(s.refused[c.ins]))
    else if c.ins == INS_GET_DATA_BUFFER_STATE then Ok(EncodeBufferState(ReportedState(s)))
    else if c.ins == INS_READ_DATA_BLOCK then Ok(StoredBlock(s, c.p1))
    else if c.ins == INS_SIGN_SINGLE then Ok(if 0 <= c.p1 < |s.signAnswers| then s.signAnswers[c.p1] else [])
    else if c.ins == INS_GET_APP_CONFIG then Ok(s.appConfig)
    else Ok([])
  }

  /** A command fails exactly when its instruction is refused. */
  lemma RespondRefusal(s: DeviceState, c: Command)
    ensures Respond(s, c).Err? <==> c.ins in s.refused
    ensures c.ins in s.refused ==> Respond(s, c) == Err(DeviceError(s.refused[c.ins]))
  {
  }

  /** The device's state after a command. */
  function Apply(s: DeviceState, c: Command): (t: DeviceState)
    ensures t.refused == s.refused && t.blockSize == s.blockSize && t.blockCount == s.blockCount
    ensures t.emptyType == s.emptyType && t.signAnswers == s.signAnswers && t.appConfig == s.appConfig
  {
    if c.ins in s.refused then s
    else if c.ins == INS_CLEAR_DATA_BUFFER then s.(dataLength := 0, dataType := s.emptyType, blocks := map[])
    else if c.ins == INS_WRITE_DATA_BLOCK then s.(blocks := s.blocks[c.p1 := c.data])
    else s
  }

  function ApplyAll(s: DeviceState, cs: seq<Command>): (t: DeviceState)
    ensures t.refused == s.refused && t.blockSize == s.blockSize && t.blockCount == s.blockCount
    ensures t.emptyType == s.emptyType && t.signAnswers == s.signAnswers && t.appConfig == s.appConfig
  {
    if |cs| == 0 then s else Apply(ApplyAll(s, cs[..|cs| - 1]), cs[|cs| - 1])
  }

  lemma ApplyAllSnoc(s: DeviceState, cs: seq<Command>, c: Command)
    ensures ApplyAll(s, cs + [c]) == Apply(ApplyAll(s, cs), c)
  {
    assert (cs + [c])[..|cs|] == cs;
  }

  lemma ApplyAllSingle(s: DeviceState, c: Command)
    ensures ApplyAll(s, [c]) == Apply(s, c)
  {
    assert [c][..0] == [];
  }

  lemma PrefixSnoc(cs: seq<Command>, j: nat)
    requires j < |cs|
    ensures cs[..j + 1] == cs[..j] + [cs[j]]
  {
  }

  /** Traces grow by appending: regrouping what was appended. */
  lemma TraceAppend(t: seq<Command>, a: seq<Command>, b: seq<Command>)
    ensures t + a + b == t + (a + b)
  {
  }

  lemma TraceRegroup(t: seq<Command>, a: seq<Command>, b: seq<Command>, c: seq<Command>)
    ensures t + a + b + c == t + (a + (b + c))
  {
  }

  /** A trace extended by one more command of a sequence. */
  lemma TraceStep(t: seq<Command>, cs: seq<Command>, j: nat)
    requires j < |cs|
    ensures t + cs[..j + 1] == (t + cs[..j]) + [cs[j]]
  {
    PrefixSnoc(cs, j);
  }

  /** One more command of a sequence, applied to the state its prefix left. */
  lemma ApplyAllPrefix(s: DeviceState, cs: seq<Command>, j: nat)
    requires j < |cs|
    ensures ApplyAll(s, cs[..j + 1]) == Apply(ApplyAll(s, cs[..j]), cs[j])
  {
    assert cs[..j + 1][..j] == cs[..j];
  }

  lemma {:induction false} ApplyAllAppend(s: DeviceState, a: seq<Command>, b: seq<Command>)
    ensures ApplyAll(s, a + b) == ApplyAll(ApplyAll(s, a), b)
    decreases |b|
  {
    if |b| == 0 {
      assert a + b == a;
    } else {
      var b' := b[..|b| - 1];
      ApplyAllAppend(s, a, b');
      assert (a + b)[..|a + b| - 1] == a + b';
    }
  }

  lemma ApplyAllCons(s: DeviceState, c: Command, cs: seq<Command>)
    ensures ApplyAll(s, [c] + cs) == ApplyAll(Apply(s, c), cs)
  {
    ApplyAllAppend(s, [c], cs);
    assert ApplyAll(s, [c]) == Apply(ApplyAll(s, []), c);
  }

  /** Two operations performed one after another performed the two
      commands in order. */
  lemma PerformedTwo(t0: seq<Command>, s0: DeviceState, c0: Command, c1: Command,
                     t1: seq<Command>, s1: DeviceState, t2: seq<Command>, s2: DeviceState)
    requires t1 == t0 + [c0] && s1 == ApplyAll(s0, [c0])
    requires t2 == t1 + [c1] && s2 == ApplyAll(s1, [c1])
    ensures t2 == t0 + [c0, c1] && s2 == ApplyAll(s0, [c0, c1])
  {
    ApplyAllSingle(s0, c0); ApplyAllSingle(s1, c1);
    ApplyAllCons(s0, c0, [c1]);
    assert [c0] + [c1] == [c0, c1];
  }

  /** Three operations performed one after another performed the three
      commands in order. */
  lemma PerformedThree(t0: seq<Command>, s0: DeviceState, c0: Command, c1: Command, c2: Command,
                       t1: seq<Command>, s1: DeviceState, t2: seq<Command>, s2: DeviceState,
                       t3: seq<Command>, s3: DeviceState)
    requires t1 == t0 + [c0] && s1 == ApplyAll(s0, [c0])
    requires t2 == t1 + [c1] && s2 == ApplyAll(s1, [c1])
    requires t3 == t2 + [c2] && s3 == ApplyAll(s2, [c2])
    ensures t3 == t0 + [c0, c1, c2] && s3 == ApplyAll(s0, [c0, c1, c2])
  {
    ApplyAllSingle(s0, c0); ApplyAllSingle(s1, c1); ApplyAllSingle(s2, c2);
    ApplyAllCons(s1, c1, [c2]);
    ApplyAllCons(s0, c0, [c1, c2]);
    assert [c0] + [c1, c2] == [c0, c1, c2];
    assert [c1] + [c2] == [c1, c2];
  }

  /** The commands a device operation sent, in order, and what it returned. */
  datatype Outcome<T> = Outcome(commands: seq<Command>, result: Result<T>)

  /** `_sendCommand`'s frame: the app's class byte and the given timeout. */
  function AppCommand(ins: int, p1: int, p2: int, data: seq<byte>, timeout: int): Command
  {
    Command(CLA, ins, p1, p2, data, timeout)
  }

  /** The APDU bytes the transport puts on the wire for a command: class,
      instruction, the two parameters, the payload length, the payload. */
  function Frame(c: Command): seq<int>
  {
    [c.cla, c.ins, c.p1, c.p2, |c.data|] + c.data
  }

  /** Drops the answer of a command whose caller only awaits it. */
  function Discard(r: Result<seq<byte>>): (d: Result<()>)
    ensures d.Ok? <==> r.Ok?
    ensures r.Err? ==> d.error == r.error
  {
    if r.Err? then Err(r.error) else Ok(())
  }

  /** The transport object: it remembers every command sent, in order. */
  class Device {
    var trace: seq<Command>
    var state: DeviceState
    var exchangeTimeout: int

    constructor (s: DeviceState)
      ensures trace == [] && state == s && exchangeTimeout == 30000
    {
      trace := [];
      state := s;
      exchangeTimeout := 30000;
    }

    /** Since the start of the calling method, exactly the commands `cs`
        were sent and the device acted on each of them. */
    twostate predicate Performed(cs: seq<Command>)
      reads this
    {
      trace == old(trace) + cs && state == ApplyAll(old(state), cs)
    }

    method SetExchangeTimeout(timeout: int)
      modifies this`exchangeTimeout
      ensures exchangeTimeout == timeout
    {
      exchangeTimeout := timeout;
    }

    /** `transport.send(cla, ins, p1, p2, data)`: records the command with
        the timeout in force, lets the device act on it and returns its
        answer, or fails with the status word. */
    method Send(cla: int, ins: int, p1: int, p2: int, data: seq<byte>) returns (r: Result<seq<byte>>)
      modifies this`trace, this`state
      ensures trace == old(trace) + [Command(cla, ins, p1, p2, data, exchangeTimeout)]
      ensures state == Apply(old(state), Command(cla, ins, p1, p2, data, exchangeTimeout))
      ensures r == Respond(old(state), Command(cla, ins, p1, p2, data, exchangeTimeout))
    {
      var c := Command(cla, ins, p1, p2, data, exchangeTimeout);
      r := Respond(state, c);
      state := Apply(state, c);
      trace := trace + [c];
    }
  }
}
